/** Printing a statement and parsing the line gives the statement back, with its arms named. */
module Reparsing {
  import opened Word
  import opened Bpf
  import opened Statements
  import opened Parser
  import opened Scanner
  import opened Formatter
  import opened Lexing
  import opened Grammar

  /** The statement as it is read back: its arms by name, their distances not yet known. */
  function Labelled(b: Body, n: nat): Body {
    match b
    case Jump(_, conditional, _, _, jt, jf) =>
      if !conditional then Jump(false, false, EqualEqual, K(0), Label(ArmLabel(jt, n), 0), NO_LABEL)
      else b.(jt := Label(ArmLabel(jt, n), 0), jf := if jf.codeNr == 0 then NO_LABEL else Label(ArmLabel(jf, n), 0))
    case Return(r, _) => Return(r, Verdict(KillProc, 0))
    case _ => b
  }

  lemma {:induction false} TokensAppend(ps: seq<Piece>, qs: seq<Piece>)
    ensures TokensOf(ps + qs) == TokensOf(ps) + TokensOf(qs)
  {
    if ps == [] {
      assert ps + qs == qs;
    } else {
      assert (ps + qs)[1..] == ps[1..] + qs;
      TokensAppend(ps[1..], qs);
    }
  }

  lemma {:induction false} SeparatedCons(p: Piece, ps: seq<Piece>, end: string)
    requires Separated(p, Printed(ps) + end) && AllSeparated(ps, end)
    ensures AllSeparated([p] + ps, end)
  {
    hide Separated, Printed;
    assert ([p] + ps)[1..] == ps;
  }

  /** The tokens of short lists of pieces. */
  function Meant(p: Piece): seq<Token> {
    if p.Space? then [] else [TokenOf(p)]
  }

  lemma Tokens1(a: Piece)
    ensures TokensOf([a]) == Meant(a)
  {
    assert TokensOf([a][1..]) == [];
  }

  lemma Tokens2(a: Piece, b: Piece)
    ensures TokensOf([a, b]) == Meant(a) + Meant(b)
  {
    Tokens1(a);
    Tokens1(b);
    TokensAppend([a], [b]);
    assert [a] + [b] == [a, b];
  }

  lemma Tokens3(a: Piece, b: Piece, c: Piece)
    ensures TokensOf([a, b, c]) == Meant(a) + Meant(b) + Meant(c)
  {
    Tokens2(a, b);
    Tokens1(c);
    TokensAppend([a, b], [c]);
    assert [a, b] + [c] == [a, b, c];
  }

  lemma Tokens4(a: Piece, b: Piece, c: Piece, d: Piece)
    ensures TokensOf([a, b, c, d]) == Meant(a) + Meant(b) + Meant(c) + Meant(d)
  {
    Tokens3(a, b, c);
    Tokens1(d);
    TokensAppend([a, b, c], [d]);
    assert [a, b, c] + [d] == [a, b, c, d];
  }

  // Each part of a statement, read where other tokens follow.

  lemma HeadTail(t: Token, rest: seq<Token>)
    ensures Head([t] + rest) == t && Tail([t] + rest) == rest
  {
    assert ([t] + rest)[1..] == rest;
  }

  function ObjTokens(o: Obj): seq<Token> {
    match o
    case VarA => [TA]
    case VarX => [TX]
    case MemWord(k) => [TMem, TLBracket, TNumber(k), TRBracket]
    case Number(k) => [TNumber(k)]
    case DataLen => [TLen]
    case SyscallNr => [TSyscall]
    case ArchNr => [TArchAttr]
    case LowPc => [TLowPc]
    case HighPc => [THighPc]
    case LowArg(k) => [TLowArg, TLBracket, TNumber(k), TRBracket]
    case HighArg(k) => [THighArg, TLBracket, TNumber(k), TRBracket]
  }

  lemma ObjTokensAre(o: Obj)
    ensures TokensOf(ObjPieces(o)) == ObjTokens(o)
  {
    hide TokensOf;
    match o
    case MemWord(k) => Tokens4(Tok(TMem), Tok(TLBracket), Hex(k, 0), Tok(TRBracket));
    case LowArg(k) => Tokens4(Tok(TLowArg), Tok(TLBracket), Dec(k), Tok(TRBracket));
    case HighArg(k) => Tokens4(Tok(THighArg), Tok(TLBracket), Dec(k), Tok(TRBracket));
    case _ => Tokens1(ObjPieces(o)[0]);
  }

  lemma BracketParses(k: u32, rest: seq<Token>)
    ensures BracketNum([TLBracket, TNumber(k), TRBracket] + rest) == Ok(k, rest)
  {
    var ts := [TLBracket, TNumber(k), TRBracket] + rest;
    assert Tail(ts) == [TNumber(k), TRBracket] + rest;
    assert Tail(Tail(ts)) == [TRBracket] + rest;
    assert Tail(Tail(Tail(ts))) == rest;
  }

  lemma RightParses(o: Obj, rest: seq<Token>)
    ensures Right(ObjTokens(o) + rest) == Ok(o, rest)
  {
    hide BracketNum;
    var ts := ObjTokens(o) + rest;
    if o.MemWord? || o.LowArg? || o.HighArg? {
      BracketParses(o.k, rest);
      assert Tail(ts) == [TLBracket, TNumber(o.k), TRBracket] + rest;
    } else {
      assert Tail(ts) == rest;
    }
  }

  lemma LeftParses(o: Obj, rest: seq<Token>)
    requires o.VarA? || o.VarX? || o.MemWord?
    ensures Left(ObjTokens(o) + rest) == Ok(o, rest)
  {
    hide BracketNum;
    var ts := ObjTokens(o) + rest;
    if o.MemWord? {
      BracketParses(o.k, rest);
      assert Tail(ts) == [TLBracket, TNumber(o.k), TRBracket] + rest;
    } else {
      assert Tail(ts) == rest;
    }
  }

  function OpTokens(op: AssignOp): seq<Token> {
    match op
    case OpTo(o) => [TAssign(o)]
    case Equal => [TEqual]
    case Negative => [TEqual, TMinus]
  }

  lemma OpTokensAre(op: AssignOp)
    ensures TokensOf(OpPieces(op)) == OpTokens(op)
  {
    hide TokensOf;
    match op
    case OpTo(o) => Tokens2(Tok(TAssign(o)), Space);
    case Equal => Tokens2(Tok(TEqual), Space);
    case Negative => Tokens3(Tok(TEqual), Space, Tok(TMinus));
  }

  lemma OperatorParses(op: AssignOp, rest: seq<Token>)
    requires Head(rest) != TMinus
    ensures Operator(OpTokens(op) + rest) == Ok(op, rest)
  {
    var ts := OpTokens(op) + rest;
    if op.Negative? {
      assert Tail(ts) == [TMinus] + rest;
      assert Tail(Tail(ts)) == rest;
    } else {
      assert Tail(ts) == rest;
    }
  }

  lemma AssignParses(left: Obj, op: AssignOp, right: Obj, rest: seq<Token>)
    requires left.VarA? || left.VarX? || left.MemWord?
    ensures AssignLine(ObjTokens(left) + OpTokens(op) + ObjTokens(right) + rest) == Ok(Assign(left, op, right), rest)
  {
    hide Left, Operator, Right;
    var r := ObjTokens(right) + rest;
    LeftParses(left, OpTokens(op) + r);
    OperatorParses(op, r);
    RightParses(right, rest);
    assert ObjTokens(left) + OpTokens(op) + ObjTokens(right) + rest == ObjTokens(left) + (OpTokens(op) + r);
  }

  function RetTokens(r: RetObj): seq<Token> {
    match r
    case RetA => [TA]
    case RetNumber(k) => [TNumber(k)]
    case RetAction(a, data) =>
      if a.HasData() then [TAction(a), TLParen, TNumber(data), TRParen] else [TAction(a)]
  }

  lemma RetTokensAre(r: RetObj)
    ensures TokensOf(ReturnPieces(r)) == RetTokens(r)
  {
    hide TokensOf;
    match r
    case RetAction(a, data) =>
      if a.HasData() {
        Tokens4(Tok(TAction(a)), Tok(TLParen), Dec(data), Tok(TRParen));
        assert ReturnPieces(r) == [Tok(TAction(a)), Tok(TLParen), Dec(data), Tok(TRParen)];
      } else {
        Tokens1(Tok(TAction(a)));
        assert ReturnPieces(r) == [Tok(TAction(a))];
      }
    case _ => Tokens1(ReturnPieces(r)[0]);
  }

  lemma ReturnParses(r: RetObj, rest: seq<Token>)
    requires Head(rest) != TLParen && (r.RetAction? && !r.action.HasData() ==> r.data == 0)
    ensures ReturnLine(RetTokens(r) + rest) == Ok(Return(r, Verdict(KillProc, 0)), rest)
  {
    if r.RetAction? && r.action.HasData() {
      DataParses(r.action, r.data, rest);
    } else {
      hide ParenNum;
      var ts := RetTokens(r) + rest;
      assert Tail(ts) == rest;
    }
  }

  lemma DataParses(a: Action, k: u32, rest: seq<Token>)
    requires a.HasData()
    ensures ReturnLine(RetTokens(RetAction(a, k)) + rest) == Ok(Return(RetAction(a, k), Verdict(KillProc, 0)), rest)
  {
    hide ParenNum;
    var ts := RetTokens(RetAction(a, k)) + rest;
    assert Tail(ts) == [TLParen, TNumber(k), TRParen] + rest;
    ParenParses(k, rest);
  }

  lemma ParenParses(k: u32, rest: seq<Token>)
    ensures ParenNum([TLParen, TNumber(k), TRParen] + rest) == Ok(k, rest)
  {
    var ts := [TLParen, TNumber(k), TRParen] + rest;
    assert Tail(ts) == [TNumber(k), TRParen] + rest;
    assert Tail(Tail(ts)) == [TRParen] + rest;
    assert Tail(Tail(Tail(ts))) == rest;
  }

  function GotoTokens(l: Label, n: nat): seq<Token> {
    [TGoto, TIdentifier(ArmLabel(l, n))]
  }

  lemma GotoTokensAre(l: Label, n: nat)
    ensures TokensOf(GotoPieces(l, n)) == GotoTokens(l, n)
  {
    hide TokensOf;
    Tokens3(Tok(TGoto), Space, Tok(TIdentifier(ArmLabel(l, n))));
  }

  lemma GotoParses(l: Label, n: nat, rest: seq<Token>)
    ensures GotoLabel(GotoTokens(l, n) + rest) == Ok(Label(ArmLabel(l, n), 0), rest)
  {
    var ts := GotoTokens(l, n) + rest;
    assert Tail(ts) == [TIdentifier(ArmLabel(l, n))] + rest;
    assert Tail(Tail(ts)) == rest;
  }

  function OperandToken(obj: Operand): Token {
    if obj.RegX? then TX else TNumber(obj.k)
  }

  function ConditionTokens(bang: bool, cmp: Comparator, obj: Operand): seq<Token> {
    (if bang then [TBang] else []) + [TLParen, TA, TCompare(cmp), OperandToken(obj), TRParen]
  }

  lemma ConditionTokensAre(bang: bool, cmp: Comparator, obj: Operand)
    ensures TokensOf((if bang then [Tok(TBang)] else []) + ConditionPieces(cmp, obj)) == ConditionTokens(bang, cmp, obj)
  {
    hide TokensOf;
    var o := OperandPiece(obj);
    Tokens4(Tok(TLParen), Tok(TA), Space, Tok(TCompare(cmp)));
    Tokens4(Space, o, Tok(TRParen), Space);
    TokensAppend([Tok(TLParen), Tok(TA), Space, Tok(TCompare(cmp))], [Space, o, Tok(TRParen), Space]);
    assert ConditionPieces(cmp, obj) == [Tok(TLParen), Tok(TA), Space, Tok(TCompare(cmp))] + [Space, o, Tok(TRParen), Space];
    Tokens1(Tok(TBang));
    TokensAppend([Tok(TBang)], ConditionPieces(cmp, obj));
    assert [] + ConditionPieces(cmp, obj) == ConditionPieces(cmp, obj);
  }

  lemma ConditionParses(bang: bool, cmp: Comparator, obj: Operand, rest: seq<Token>, names: Names)
    ensures Condition(ConditionTokens(bang, cmp, obj) + rest, names) == Ok((bang, cmp, obj), rest)
  {
    hide Head, Tail, CompareObj;
    var r5 := [TRParen] + rest;
    var r4 := [OperandToken(obj)] + r5;
    var r3 := [TCompare(cmp)] + r4;
    var r2 := [TA] + r3;
    var r1 := [TLParen] + r2;
    HeadTail(TRParen, rest);
    HeadTail(TCompare(cmp), r4);
    HeadTail(TA, r3);
    HeadTail(TLParen, r2);
    HeadTail(TBang, r1);
    CompareParses(obj, r5, names);
    assert ConditionTokens(bang, cmp, obj) + rest == if bang then [TBang] + r1 else r1;
  }

  lemma CompareParses(obj: Operand, rest: seq<Token>, names: Names)
    ensures CompareObj([OperandToken(obj)] + rest, names) == Ok(obj, rest)
  {
    HeadTail(OperandToken(obj), rest);
  }

  function ElseTokens(jf: Label, n: nat): seq<Token> {
    if jf.codeNr == 0 then [] else [TComma, TElse] + GotoTokens(jf, n)
  }

  lemma ElseTokensAre(jf: Label, n: nat)
    ensures TokensOf(ElsePieces(jf, n)) == ElseTokens(jf, n)
  {
    if jf.codeNr != 0 {
      hide TokensOf;
      GotoTokensAre(jf, n);
      Tokens4(Tok(TComma), Space, Tok(TElse), Space);
      TokensAppend([Tok(TComma), Space, Tok(TElse), Space], GotoPieces(jf, n));
    }
  }

  lemma Regroup(a: seq<Token>, b: seq<Token>, c: seq<Token>, d: seq<Token>)
    ensures a + b + c + d == a + (b + (c + d))
  {
  }

  lemma ElseGroups(l: Label, n: nat, rest: seq<Token>)
    ensures ElseTokens(l, n) + rest == if l.codeNr == 0 then rest else [TComma] + ([TElse] + (GotoTokens(l, n) + rest))
  {
    hide GotoTokens;
  }

  lemma JumpParses(b: Body, n: nat, rest: seq<Token>, names: Names)
    requires b.Jump? && b.conditional && Head(rest) != TComma
    ensures JumpLine(ConditionTokens(b.bang, b.cmp, b.cmpobj) + GotoTokens(b.jt, n) + ElseTokens(b.jf, n) + rest, names)
         == Ok(Labelled(b, n), rest)
  {
    hide Condition, GotoLabel, ConditionTokens, GotoTokens, ElseTokens, JumpLine;
    ElseGroups(b.jf, n, rest);
    var other := ElseTokens(b.jf, n) + rest;
    var ts := ConditionTokens(b.bang, b.cmp, b.cmpobj) + GotoTokens(b.jt, n) + ElseTokens(b.jf, n) + rest;
    var c, jt := (b.bang, b.cmp, b.cmpobj), Label(ArmLabel(b.jt, n), 0);
    ConditionParses(b.bang, b.cmp, b.cmpobj, GotoTokens(b.jt, n) + other, names);
    Regroup(ConditionTokens(b.bang, b.cmp, b.cmpobj), GotoTokens(b.jt, n), ElseTokens(b.jf, n), rest);
    GotoParses(b.jt, n, other);
    if b.jf.codeNr != 0 {
      GotoParses(b.jf, n, rest);
      var last := GotoTokens(b.jf, n) + rest;
      BothArmsParse(ts, names, c, GotoTokens(b.jt, n) + other, jt, last, Label(ArmLabel(b.jf, n), 0), rest);
    } else {
      OneArmParses(ts, names, c, GotoTokens(b.jt, n) + other, jt, rest);
    }
  }

  lemma BothArmsParse(ts: seq<Token>, names: Names, c: (bool, Comparator, Operand), afterCondition: seq<Token>, jt: Label, last: seq<Token>,
                      jf: Label, rest: seq<Token>)
    requires Condition(ts, names) == Ok(c, afterCondition) && GotoLabel(afterCondition) == Ok(jt, [TComma] + ([TElse] + last))
    requires GotoLabel(last) == Ok(jf, rest)
    ensures JumpLine(ts, names) == Ok(Jump(c.0, true, c.1, c.2, jt, jf), rest)
  {
    hide Condition, GotoLabel;
    HeadTail(TComma, [TElse] + last);
    HeadTail(TElse, last);
  }

  lemma OneArmParses(ts: seq<Token>, names: Names, c: (bool, Comparator, Operand), afterCondition: seq<Token>, jt: Label, rest: seq<Token>)
    requires Condition(ts, names) == Ok(c, afterCondition) && GotoLabel(afterCondition) == Ok(jt, rest) && Head(rest) != TComma
    ensures JumpLine(ts, names) == Ok(Jump(c.0, true, c.1, c.2, jt, NO_LABEL), rest)
  {
    hide Condition, GotoLabel;
  }

  function NoteTokens(b: Body): seq<Token> {
    if b.Assign? && b.right.DataLen? then [TComment] else []
  }

  /** The tokens of a statement, without its note. */
  function BodyTokens(b: Body, n: nat): seq<Token> {
    match b
    case Assign(left, op, right) => ObjTokens(left) + OpTokens(op) + ObjTokens(right)
    case Jump(bang, conditional, cmp, obj, jt, jf) =>
      if !conditional then GotoTokens(jt, n)
      else [TIf] + (ConditionTokens(bang, cmp, obj) + GotoTokens(jt, n) + ElseTokens(jf, n))
    case Return(r, _) => [TReturn] + RetTokens(r)
    case _ => []
  }

  lemma BodyTokensAre(b: Body, n: nat)
    ensures TokensOf(BodyPieces(b, n)) == BodyTokens(b, n) + NoteTokens(b)
  {
    hide TokensOf, ObjPieces, ObjTokens, OpPieces, OpTokens, GotoPieces, GotoTokens, ElsePieces, ElseTokens, ConditionPieces, ConditionTokens, ReturnPieces, RetTokens;
    match b
    case Assign(left, op, right) => AssignTokensAre(left, op, right);
    case Jump(bang, conditional, cmp, obj, jt, jf) =>
      GotoTokensAre(jt, n);
      if conditional {
        JumpTokensAre(b, n);
      }
    case Return(r, _) =>
      RetTokensAre(r);
      Tokens2(Tok(TReturn), Space);
      TokensAppend([Tok(TReturn), Space], ReturnPieces(r));
    case _ => NoTokens();
  }

  lemma NoTokens()
    ensures TokensOf([]) == []
  {
  }

  lemma AssignTokensAre(left: Obj, op: AssignOp, right: Obj)
    ensures TokensOf(ObjPieces(left) + [Space] + OpPieces(op) + ObjPieces(right) + NotePieces(right))
         == ObjTokens(left) + OpTokens(op) + ObjTokens(right) + NoteTokens(Assign(left, op, right))
  {
    hide TokensOf, ObjPieces, ObjTokens, OpPieces, OpTokens;
    ObjTokensAre(left);
    OpTokensAre(op);
    ObjTokensAre(right);
    Tokens1(Space);
    Tokens2(Space, Note(" 0x40"));
    NoTokens();
    TokensAppend(ObjPieces(left), [Space]);
    TokensAppend(ObjPieces(left) + [Space], OpPieces(op));
    TokensAppend(ObjPieces(left) + [Space] + OpPieces(op), ObjPieces(right));
    TokensAppend(ObjPieces(left) + [Space] + OpPieces(op) + ObjPieces(right), NotePieces(right));
  }

  lemma JumpTokensAre(b: Body, n: nat)
    requires b.Jump? && b.conditional
    ensures TokensOf(BodyPieces(b, n))
         == [TIf] + (ConditionTokens(b.bang, b.cmp, b.cmpobj) + GotoTokens(b.jt, n) + ElseTokens(b.jf, n))
  {
    hide TokensOf, GotoPieces, GotoTokens, ElsePieces, ElseTokens, ConditionPieces, ConditionTokens;
    var opening: seq<Piece> := [Tok(TIf), Space];
    var condition := (if b.bang then [Tok(TBang)] else []) + ConditionPieces(b.cmp, b.cmpobj);
    Tokens2(Tok(TIf), Space);
    ConditionTokensAre(b.bang, b.cmp, b.cmpobj);
    GotoTokensAre(b.jt, n);
    ElseTokensAre(b.jf, n);
    TokensAppend(opening, condition);
    TokensAppend(opening + condition, GotoPieces(b.jt, n));
    TokensAppend(opening + condition + GotoPieces(b.jt, n), ElsePieces(b.jf, n));
    assert BodyPieces(b, n) == opening + condition + GotoPieces(b.jt, n) + ElsePieces(b.jf, n);
  }

  lemma AssignExpression(left: Obj, op: AssignOp, right: Obj, rest: seq<Token>, names: Names)
    requires left.VarA? || left.VarX? || left.MemWord?
    ensures var ts := ObjTokens(left) + OpTokens(op) + ObjTokens(right) + rest;
            Expression(ts, names) == Ok(Assign(left, op, right), rest) && !Head(ts).TNumber? && !Head(ts).TOverflow?
  {
    hide ObjTokens, OpTokens, AssignLine, JumpLine, ReturnLine, JaLine, Head;
    AssignParses(left, op, right, rest);
    ObjHead(left, OpTokens(op) + ObjTokens(right) + rest);
    assert ObjTokens(left) + OpTokens(op) + ObjTokens(right) + rest == ObjTokens(left) + (OpTokens(op) + ObjTokens(right) + rest);
  }

  lemma JumpExpression(b: Body, n: nat, rest: seq<Token>, names: Names)
    requires b.Jump? && Head(rest) != TComma
    ensures var ts := BodyTokens(b, n) + rest;
            Expression(ts, names) == Ok(Labelled(b, n), rest) && !Head(ts).TNumber? && !Head(ts).TOverflow?
  {
    hide GotoTokens, ElseTokens, ConditionTokens, AssignLine, JumpLine, ReturnLine, JaLine, Head, Tail;
    if b.conditional {
      JumpParses(b, n, rest, names);
      var tail := ConditionTokens(b.bang, b.cmp, b.cmpobj) + GotoTokens(b.jt, n) + ElseTokens(b.jf, n) + rest;
      HeadTail(TIf, tail);
      assert BodyTokens(b, n) + rest == [TIf] + tail;
    } else {
      JaParses(b.jt, n, rest);
    }
  }

  lemma ReturnExpression(r: RetObj, rest: seq<Token>, names: Names)
    requires Head(rest) != TLParen && (r.RetAction? && !r.action.HasData() ==> r.data == 0)
    ensures var ts := [TReturn] + RetTokens(r) + rest;
            Expression(ts, names) == Ok(Return(r, Verdict(KillProc, 0)), rest) && !Head(ts).TNumber? && !Head(ts).TOverflow?
  {
    hide RetTokens, AssignLine, JumpLine, ReturnLine, JaLine, Head, Tail;
    ReturnParses(r, rest);
    HeadTail(TReturn, RetTokens(r) + rest);
    assert [TReturn] + RetTokens(r) + rest == [TReturn] + (RetTokens(r) + rest);
  }

  /** A statement's tokens, before a note or the end of the line, are read as the statement. */
  lemma ExpressionParses(b: Body, n: nat, rest: seq<Token>, names: Names)
    requires Writable(b) && (Head(rest) == TComment || Head(rest) == TEol)
    ensures var ts := BodyTokens(b, n) + rest;
            Expression(ts, names) == Ok(Labelled(b, n), rest) && !Head(ts).TNumber? && !Head(ts).TOverflow?
  {
    hide ObjTokens, OpTokens, GotoTokens, ElseTokens, ConditionTokens, RetTokens, Expression, Head;
    match b
    case Assign(left, op, right) => AssignExpression(left, op, right, rest, names);
    case Jump(_, _, _, _, _, _) => JumpExpression(b, n, rest, names);
    case Return(r, _) => ReturnExpression(r, rest, names);
  }

  lemma ObjHead(o: Obj, rest: seq<Token>)
    requires o.VarA? || o.VarX? || o.MemWord?
    ensures var h := Head(ObjTokens(o) + rest); h == TA || h == TX || h == TMem
  {
  }

  lemma JaParses(l: Label, n: nat, rest: seq<Token>)
    ensures Head(GotoTokens(l, n) + rest) == TGoto
    ensures JaLine(Tail(GotoTokens(l, n) + rest)) == Ok(Jump(false, false, EqualEqual, K(0), Label(ArmLabel(l, n), 0), NO_LABEL), rest)
  {
    var ts := GotoTokens(l, n) + rest;
    assert Tail(ts) == [TIdentifier(ArmLabel(l, n))] + rest;
    assert Tail(Tail(ts)) == rest;
  }

  // Every piece of a line is followed by something that ends it.

  predicate Opens(ps: seq<Piece>, end: string) {
    Printed(ps) + end != "" && IsDelimiter((Printed(ps) + end)[0])
  }

  lemma OpensCons(p: Piece, ps: seq<Piece>, end: string)
    requires Text(p) != "" && IsDelimiter(Text(p)[0])
    ensures Opens([p] + ps, end)
  {
    assert ([p] + ps)[1..] == ps;
  }

  lemma {:induction false} AddSpace(ps: seq<Piece>, end: string)
    requires AllSeparated(ps, end)
    ensures AllSeparated([Space] + ps, end) && Opens([Space] + ps, end)
  {
    SeparatedCons(Space, ps, end);
    OpensCons(Space, ps, end);
  }

  lemma {:induction false} AddBracket(t: Token, ps: seq<Piece>, end: string)
    requires IsBracket(t) && AllSeparated(ps, end)
    ensures AllSeparated([Tok(t)] + ps, end) && Opens([Tok(t)] + ps, end)
  {
    SeparatedCons(Tok(t), ps, end);
    OpensCons(Tok(t), ps, end);
  }

  lemma {:induction false} AddWord(p: Piece, ps: seq<Piece>, end: string)
    requires p.Hex? || p.Dec? || (p.Tok? && Printable(p.t))
    requires AllSeparated(ps, end) && Opens(ps, end)
    ensures AllSeparated([p] + ps, end)
  {
    SeparatedCons(p, ps, end);
  }

  lemma {:induction false} AddIndexed(t: Token, k: Piece, ps: seq<Piece>, end: string)
    requires t.TMem? || t.TLowArg? || t.THighArg?
    requires k.Hex? || k.Dec?
    requires AllSeparated(ps, end)
    ensures AllSeparated([Tok(t), Tok(TLBracket), k, Tok(TRBracket)] + ps, end)
    ensures Opens([Tok(t), Tok(TLBracket), k, Tok(TRBracket)] + ps, end)
  {
    hide AllSeparated, Opens;
    AddBracket(TRBracket, ps, end);
    var p1 := [Tok(TRBracket)] + ps;
    AddWord(k, p1, end);
    var p2 := [k] + p1;
    AddBracket(TLBracket, p2, end);
    var p3 := [Tok(TLBracket)] + p2;
    AddWord(Tok(t), p3, end);
    OpensCons(Tok(t), p3, end);
    assert [Tok(t)] + p3 == [Tok(t), Tok(TLBracket), k, Tok(TRBracket)] + ps;
  }

  lemma {:induction false} AddObj(o: Obj, ps: seq<Piece>, end: string)
    requires AllSeparated(ps, end) && Opens(ps, end)
    ensures AllSeparated(ObjPieces(o) + ps, end)
    ensures !o.Number? ==> Opens(ObjPieces(o) + ps, end)
  {
    hide AllSeparated, Opens;
    match o
    case MemWord(k) => AddIndexed(TMem, Hex(k, 0), ps, end);
    case LowArg(k) => AddIndexed(TLowArg, Dec(k), ps, end);
    case HighArg(k) => AddIndexed(THighArg, Dec(k), ps, end);
    case Number(k) => AddWord(Hex(k, 0), ps, end);
    case _ =>
      AddWord(ObjPieces(o)[0], ps, end);
      OpensCons(ObjPieces(o)[0], ps, end);
  }

  lemma {:induction false} AddOp(op: AssignOp, ps: seq<Piece>, end: string)
    requires AllSeparated(ps, end) && (op.Negative? ==> Opens(ps, end))
    ensures AllSeparated(OpPieces(op) + ps, end)
  {
    hide AllSeparated, Opens;
    if op.Negative? {
      AddWord(Tok(TMinus), ps, end);
      AddSign(Tok(TEqual), [Tok(TMinus)] + ps, end);
      assert OpPieces(op) + ps == [Tok(TEqual)] + ([Space] + ([Tok(TMinus)] + ps));
    } else {
      var word := if op.OpTo? then Tok(TAssign(op.op)) else Tok(TEqual);
      AddSign(word, ps, end);
      assert OpPieces(op) + ps == [word] + ([Space] + ps);
    }
  }

  lemma {:induction false} AddSign(word: Piece, ps: seq<Piece>, end: string)
    requires AllSeparated(ps, end) && word.Tok? && (word.t.TAssign? || word.t.TEqual?)
    ensures AllSeparated([word] + ([Space] + ps), end)
  {
    hide AllSeparated, Opens;
    AddSpace(ps, end);
    AddWord(word, [Space] + ps, end);
  }

  lemma NoteSeparated(right: Obj)
    ensures AllSeparated(NotePieces(right), "\n") && Opens(NotePieces(right), "\n")
  {
    if right.DataLen? {
      var note: seq<Piece> := [Note(" 0x40")];
      assert note[1..] == [];
      AddSpace(note, "\n");
      assert [Space] + note == NotePieces(right);
    }
  }

  lemma AssignSeparated(left: Obj, op: AssignOp, right: Obj)
    requires op.Negative? ==> right.VarA?
    ensures AllSeparated(ObjPieces(left) + [Space] + OpPieces(op) + ObjPieces(right) + NotePieces(right), "\n")
  {
    hide AllSeparated, Opens, ObjPieces, OpPieces, NotePieces;
    NoteSeparated(right);
    AddObj(right, NotePieces(right), "\n");
    var p1 := ObjPieces(right) + NotePieces(right);
    AddOp(op, p1, "\n");
    var p2 := OpPieces(op) + p1;
    AddSpace(p2, "\n");
    var p3 := [Space] + p2;
    AddObj(left, p3, "\n");
    assert ObjPieces(left) + [Space] + OpPieces(op) + ObjPieces(right) + NotePieces(right) == ObjPieces(left) + p3;
  }

  lemma {:induction false} DigitsAreIdentifier(s: string)
    requires AllDigits(s, 10)
    ensures forall i :: 0 <= i < |s| ==> IsIdentifier(s[i]) && IsDigit(s[i])
  {
  }

  lemma DefaultLabelIsLabel(n: nat)
    ensures IsLabel(DefaultLabel(n))
  {
    hide Padded, ToDigits, DigitsValue;
    PaddedBack(n, 4, 10);
    DigitsAreIdentifier(Padded(ToDigits(n, 10), 4));
  }

  lemma {:induction false} AddGoto(l: Label, n: nat, ps: seq<Piece>, end: string)
    requires l.key == "" && AllSeparated(ps, end) && Opens(ps, end)
    ensures AllSeparated(GotoPieces(l, n) + ps, end)
  {
    hide AllSeparated, Opens, DefaultLabel, IsLabel;
    var name := Tok(TIdentifier(ArmLabel(l, n)));
    DefaultLabelIsLabel(n + l.codeNr + 1);
    AddWord(name, ps, end);
    AddSpace([name] + ps, end);
    AddWord(Tok(TGoto), [Space] + ([name] + ps), end);
    assert GotoPieces(l, n) + ps == [Tok(TGoto)] + ([Space] + ([name] + ps));
  }

  lemma ElseSeparated(jf: Label, n: nat)
    requires jf.key == ""
    ensures AllSeparated(ElsePieces(jf, n), "\n") && Opens(ElsePieces(jf, n), "\n")
  {
    if jf.codeNr != 0 {
      hide AllSeparated, Opens, GotoPieces;
      EndOpens();
      AddGoto(jf, n, [], "\n");
      var p1 := GotoPieces(jf, n) + [];
      AddElse(p1);
      assert ElsePieces(jf, n) == [Tok(TComma), Space, Tok(TElse), Space] + p1;
    }
  }

  lemma {:induction false} AddElse(ps: seq<Piece>)
    requires AllSeparated(ps, "\n")
    ensures AllSeparated([Tok(TComma), Space, Tok(TElse), Space] + ps, "\n")
    ensures Opens([Tok(TComma), Space, Tok(TElse), Space] + ps, "\n")
  {
    hide AllSeparated, Opens;
    AddSpace(ps, "\n");
    AddWord(Tok(TElse), [Space] + ps, "\n");
    AddSpace([Tok(TElse)] + ([Space] + ps), "\n");
    var p2 := [Space] + ([Tok(TElse)] + ([Space] + ps));
    AddWord(Tok(TComma), p2, "\n");
    OpensCons(Tok(TComma), p2, "\n");
    assert [Tok(TComma)] + p2 == [Tok(TComma), Space, Tok(TElse), Space] + ps;
  }

  lemma EndOpens()
    ensures AllSeparated([], "\n") && Opens([], "\n")
  {
  }

  lemma {:induction false} AddWordSpace(t: Token, ps: seq<Piece>, end: string)
    requires (t.TCompare? || t.TA?) && AllSeparated(ps, end)
    ensures AllSeparated([Tok(t), Space] + ps, end)
  {
    hide AllSeparated, Opens;
    AddSpace(ps, end);
    AddWord(Tok(t), [Space] + ps, end);
    assert [Tok(t)] + ([Space] + ps) == [Tok(t), Space] + ps;
  }

  lemma {:induction false} AddOperand(obj: Operand, ps: seq<Piece>, end: string)
    requires AllSeparated(ps, end)
    ensures AllSeparated([OperandPiece(obj), Tok(TRParen), Space] + ps, end)
  {
    hide AllSeparated, Opens;
    AddSpace(ps, end);
    var p1 := [Space] + ps;
    AddBracket(TRParen, p1, end);
    var p2 := [Tok(TRParen)] + p1;
    AddWord(OperandPiece(obj), p2, end);
    assert [OperandPiece(obj)] + p2 == [OperandPiece(obj), Tok(TRParen), Space] + ps;
  }

  lemma {:induction false} AddCondition(cmp: Comparator, obj: Operand, ps: seq<Piece>, end: string)
    requires AllSeparated(ps, end)
    ensures AllSeparated(ConditionPieces(cmp, obj) + ps, end) && Opens(ConditionPieces(cmp, obj) + ps, end)
  {
    hide AllSeparated, Opens, OperandPiece, Printable;
    var operand := [OperandPiece(obj), Tok(TRParen), Space];
    AddOperand(obj, ps, end);
    var p1 := operand + ps;
    AddWordSpace(TCompare(cmp), p1, end);
    var p2 := [Tok(TCompare(cmp)), Space] + p1;
    AddWordSpace(TA, p2, end);
    AddBracket(TLParen, [Tok(TA), Space] + p2, end);
    assert ConditionPieces(cmp, obj) == [Tok(TLParen)] + [Tok(TA), Space] + [Tok(TCompare(cmp)), Space] + operand;
    assert ConditionPieces(cmp, obj) + ps == [Tok(TLParen)] + ([Tok(TA), Space] + p2);
  }

  lemma {:induction false} AddIf(bang: bool, ps: seq<Piece>)
    requires AllSeparated(ps, "\n") && Opens(ps, "\n")
    ensures AllSeparated([Tok(TIf), Space] + (if bang then [Tok(TBang)] else []) + ps, "\n")
  {
    hide AllSeparated, Opens;
    AddWord(Tok(TBang), ps, "\n");
    var p := if bang then [Tok(TBang)] + ps else ps;
    AddSpace(p, "\n");
    AddWord(Tok(TIf), [Space] + p, "\n");
    assert [Tok(TIf), Space] + (if bang then [Tok(TBang)] else []) + ps == [Tok(TIf)] + ([Space] + p);
  }

  lemma JumpSeparated(b: Body, n: nat)
    requires b.Jump? && b.jt.key == "" && b.jf.key == ""
    ensures AllSeparated(BodyPieces(b, n), "\n")
  {
    hide AllSeparated, Opens, GotoPieces, ElsePieces, ConditionPieces;
    if b.conditional {
      ElseSeparated(b.jf, n);
      AddGoto(b.jt, n, ElsePieces(b.jf, n), "\n");
      var p1 := GotoPieces(b.jt, n) + ElsePieces(b.jf, n);
      AddCondition(b.cmp, b.cmpobj, p1, "\n");
      var p2 := ConditionPieces(b.cmp, b.cmpobj) + p1;
      AddIf(b.bang, p2);
      assert BodyPieces(b, n) == [Tok(TIf), Space] + (if b.bang then [Tok(TBang)] else []) + p2;
    } else {
      EndOpens();
      AddGoto(b.jt, n, [], "\n");
      assert BodyPieces(b, n) == GotoPieces(b.jt, n) + [];
    }
  }

  lemma ReturnSeparated(r: RetObj)
    ensures AllSeparated([Tok(TReturn), Space] + ReturnPieces(r), "\n")
  {
    hide AllSeparated, Opens;
    EndOpens();
    var p := ReturnPieces(r);
    if r.RetAction? && r.action.HasData() {
      AddBracket(TRParen, [], "\n");
      var p1: seq<Piece> := [Tok(TRParen)] + [];
      AddWord(Dec(r.data), p1, "\n");
      AddBracket(TLParen, [Dec(r.data)] + p1, "\n");
      var p2 := [Tok(TLParen)] + ([Dec(r.data)] + p1);
      AddWord(Tok(TAction(r.action)), p2, "\n");
      assert p == [Tok(TAction(r.action))] + p2;
    } else {
      AddWord(p[0], [], "\n");
      assert p == [p[0]] + [];
    }
    AddSpace(p, "\n");
    AddWord(Tok(TReturn), [Space] + p, "\n");
    assert [Tok(TReturn), Space] + p == [Tok(TReturn)] + ([Space] + p);
  }

  lemma BodySeparated(b: Body, n: nat)
    requires Writable(b)
    ensures AllSeparated(BodyPieces(b, n), "\n")
  {
    hide AllSeparated, ObjPieces, OpPieces, NotePieces, GotoPieces, ElsePieces, ConditionPieces, ReturnPieces;
    match b
    case Assign(left, op, right) => AssignSeparated(left, op, right);
    case Jump(_, _, _, _, _, _) => JumpSeparated(b, n);
    case Return(r, _) => ReturnSeparated(r);
  }

  function HeadPieces(n: nat, f: Filter): seq<Piece> {
    [Space, Tok(TLabelDecl(DefaultLabel(n))), Space, Hex(CodeNumber(f.code), 2)]
  }

  function WordPieces(f: Filter): seq<Piece> {
    [Space, Hex(f.jt, 2), Space, Hex(f.jf, 2)] + [Space, Hex(f.k, 8), Space]
  }

  lemma LineSplit(n: nat, f: Filter, b: Body)
    ensures LinePieces(n, f, b) == HeadPieces(n, f) + (WordPieces(f) + BodyPieces(b, n))
  {
  }

  lemma {:induction false} WordsSeparated(f: Filter, ps: seq<Piece>)
    requires AllSeparated(ps, "\n")
    ensures AllSeparated(WordPieces(f) + ps, "\n") && Opens(WordPieces(f) + ps, "\n")
  {
    hide AllSeparated, Opens;
    AddSpace(ps, "\n");
    var p1 := [Space] + ps;
    AddWord(Hex(f.k, 8), p1, "\n");
    AddSpace([Hex(f.k, 8)] + p1, "\n");
    var p2 := [Space] + ([Hex(f.k, 8)] + p1);
    AddWord(Hex(f.jf, 2), p2, "\n");
    AddSpace([Hex(f.jf, 2)] + p2, "\n");
    var p3 := [Space] + ([Hex(f.jf, 2)] + p2);
    AddWord(Hex(f.jt, 2), p3, "\n");
    AddSpace([Hex(f.jt, 2)] + p3, "\n");
    assert WordPieces(f) + ps == [Space] + ([Hex(f.jt, 2)] + p3);
  }

  lemma {:induction false} HeadSeparated(n: nat, f: Filter, ps: seq<Piece>)
    requires AllSeparated(ps, "\n") && Opens(ps, "\n")
    ensures AllSeparated(HeadPieces(n, f) + ps, "\n")
  {
    hide AllSeparated, Opens, DefaultLabel, IsLabel;
    DefaultLabelIsLabel(n);
    var code := Hex(CodeNumber(f.code), 2);
    AddWord(code, ps, "\n");
    AddSpace([code] + ps, "\n");
    var p1 := [Space] + ([code] + ps);
    var decl := Tok(TLabelDecl(DefaultLabel(n)));
    AddWord(decl, p1, "\n");
    AddSpace([decl] + p1, "\n");
    assert HeadPieces(n, f) + ps == [Space] + ([decl] + p1);
  }

  lemma LineSeparated(n: nat, f: Filter, b: Body)
    requires Writable(b)
    ensures AllSeparated(LinePieces(n, f, b), "\n")
  {
    hide AllSeparated, Opens, HeadPieces, WordPieces, BodyPieces;
    BodySeparated(b, n);
    WordsSeparated(f, BodyPieces(b, n));
    HeadSeparated(n, f, WordPieces(f) + BodyPieces(b, n));
    LineSplit(n, f, b);
  }

  function WordTokens(f: Filter): seq<Token> {
    [TNumber(CodeNumber(f.code)), TNumber(f.jt), TNumber(f.jf), TNumber(f.k)]
  }

  lemma LineTokensAre(n: nat, f: Filter, b: Body)
    ensures TokensOf(LinePieces(n, f, b)) == [TLabelDecl(DefaultLabel(n))] + (WordTokens(f) + (BodyTokens(b, n) + NoteTokens(b)))
  {
    hide TokensOf, BodyPieces, BodyTokens, NoteTokens, DefaultLabel, CodeNumber;
    LineSplit(n, f, b);
    BodyTokensAre(b, n);
    Tokens4(Space, Tok(TLabelDecl(DefaultLabel(n))), Space, Hex(CodeNumber(f.code), 2));
    Tokens4(Space, Hex(f.jt, 2), Space, Hex(f.jf, 2));
    Tokens3(Space, Hex(f.k, 8), Space);
    TokensAppend([Space, Hex(f.jt, 2), Space, Hex(f.jf, 2)], [Space, Hex(f.k, 8), Space]);
    TokensAppend(WordPieces(f), BodyPieces(b, n));
    TokensAppend(HeadPieces(n, f), WordPieces(f) + BodyPieces(b, n));
  }

  lemma {:induction false} NumbersSkipped(f: Filter, rest: seq<Token>)
    requires !Head(rest).TNumber? && !Head(rest).TOverflow?
    ensures SkipNumbers(WordTokens(f) + rest, 0) == Ok((), rest)
  {
    hide CodeNumber, SkipNumbers, Head, Tail;
    var r4 := [TNumber(f.k)] + rest;
    var r3 := [TNumber(f.jf)] + r4;
    var r2 := [TNumber(f.jt)] + r3;
    var code := CodeNumber(f.code);
    SkipsOne(code, r2, 0);
    SkipsOne(f.jt, r3, 1);
    SkipsOne(f.jf, r4, 2);
    SkipsOne(f.k, rest, 3);
    SkipsNone(rest, 4);
    assert WordTokens(f) + rest == [TNumber(code)] + r2;
  }

  lemma {:induction false} SkipsOne(k: u32, rest: seq<Token>, count: nat)
    requires count < 5
    ensures SkipNumbers([TNumber(k)] + rest, count) == SkipNumbers(rest, count + 1)
  {
    HeadTail(TNumber(k), rest);
  }

  lemma {:induction false} SkipsNone(rest: seq<Token>, count: nat)
    requires count <= 5 && !Head(rest).TNumber? && !Head(rest).TOverflow?
    ensures SkipNumbers(rest, count) == Ok((), rest)
  {
  }

  lemma StatementParses(b: Body, n: nat, names: Names)
    requires Writable(b)
    ensures var ts := BodyTokens(b, n) + NoteTokens(b) + [TEol];
            StatementLine(ts, names) == Labelled(b, n) && !Head(ts).TNumber? && !Head(ts).TOverflow?
  {
    hide BodyTokens, Expression, Labelled;
    var end := NoteTokens(b) + [TEol];
    HeadTail(TComment, [TEol]);
    HeadTail(TEol, []);
    assert NoteTokens(b) == [] ==> end == [TEol];
    ExpressionParses(b, n, end, names);
    assert BodyTokens(b, n) + NoteTokens(b) + [TEol] == BodyTokens(b, n) + end;
  }

  /** A printed line, scanned and parsed, is the statement under the label of its number. */
  lemma LineReadBack(n: nat, f: Filter, b: Body, names: Names)
    requires Writable(b)
    ensures ParseLine(ScanLine(Printed(LinePieces(n, f, b)) + "\n"), names) == Line(DefaultLabel(n), Labelled(b, n))
  {
    hide ScanLine, Printed, TokensOf, AllSeparated, BodyTokens, NoteTokens, WordTokens, StatementLine, SkipNumbers, DefaultLabel, Labelled, LinePieces;
    LineSeparated(n, f, b);
    PiecesScan(LinePieces(n, f, b));
    LineTokensAre(n, f, b);
    StatementParses(b, n, names);
    var ts := BodyTokens(b, n) + NoteTokens(b) + [TEol];
    NumbersSkipped(f, ts);
    HeadTail(TLabelDecl(DefaultLabel(n)), WordTokens(f) + ts);
    assert [TLabelDecl(DefaultLabel(n))] + (WordTokens(f) + (BodyTokens(b, n) + NoteTokens(b))) + [TEol]
        == [TLabelDecl(DefaultLabel(n))] + (WordTokens(f) + ts);
  }

  /** A comment on a line of its own is an empty line. */
  lemma CommentReadBack(text: string, names: Names)
    requires '\n' !in text
    ensures ParseLine(ScanLine(Printed([Note(text)]) + "\n"), names) == Line("", Empty)
  {
    hide ScanLine, Printed;
    NoteAlone(text);
    PiecesScan([Note(text)]);
    Tokens1(Note(text));
    HeadTail(TComment, [TEol]);
    HeadTail(TEol, []);
  }

  lemma NoteAlone(text: string)
    requires '\n' !in text
    ensures AllSeparated([Note(text)], "\n")
  {
    assert [Note(text)][1..] == [];
  }

  lemma {:induction false} LabelsDiffer(k: nat, j: nat)
    requires DefaultLabel(k) == DefaultLabel(j)
    ensures k == j
  {
    hide Padded, ToDigits, DigitsValue;
    PaddedBack(k, 4, 10);
    PaddedBack(j, 4, 10);
    assert DefaultLabel(k)[1..] == Padded(ToDigits(k, 10), 4);
    assert DefaultLabel(j)[1..] == Padded(ToDigits(j, 10), 4);
  }
}
