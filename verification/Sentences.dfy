/** What the lines of the language are read as, sentence by sentence. */
module Sentences {
  import opened Word
  import opened Bpf
  import opened Statements
  import opened Parser
  import opened Scanner
  import opened Grammar
  import opened Reparsing

  /** A known number of a system call or an architecture; all ones stand for none. */
  function Numbered(nr: u32): Option<Operand> {
    if nr == 0xffff_ffff then None else Some(K(nr))
  }

  /** Tokens that begin with `t` and go on with `rest`. */
  predicate Begins(ts: seq<Token>, t: Token, rest: seq<Token>) {
    ts == [t] + rest
  }

  lemma Begin(ts: seq<Token>, t: Token, rest: seq<Token>)
    requires Begins(ts, t, rest)
    ensures Head(ts) == t && Tail(ts) == rest
  {
    HeadTail(t, rest);
  }

  lemma GotoReads(ts: seq<Token>, l: string, rest: seq<Token>)
    requires ts == [TGoto] + ([TIdentifier(l)] + rest)
    ensures GotoLabel(ts) == Ok(Label(l, 0), rest)
  {
    Begin(ts, TGoto, [TIdentifier(l)] + rest);
    Begin([TIdentifier(l)] + rest, TIdentifier(l), rest);
  }

  /** A condition, when its operand is read as `o` from the tokens `obj` before the bracket. */
  lemma ConditionReads(ts: seq<Token>, bang: bool, c: Comparator, obj: seq<Token>, o: Option<Operand>, after: seq<Token>, names: Names)
    requires ts == (if bang then [TBang] else []) + ([TLParen] + ([TA] + ([TCompare(c)] + (obj + ([TRParen] + after)))))
    requires CompareObj(obj + ([TRParen] + after), names) == if o.None? then Error else Ok(o.value, [TRParen] + after)
    ensures Condition(ts, names) == if o.None? then Error else Ok((bang, c, o.value), after)
  {
    hide Head, Tail, CompareObj, Condition;
    var t3 := obj + ([TRParen] + after);
    var t2 := [TCompare(c)] + t3;
    var t1 := [TA] + t2;
    var t0 := [TLParen] + t1;
    HeadTail(TLParen, t1);
    HeadTail(TA, t2);
    HeadTail(TCompare(c), t3);
    HeadTail(TRParen, after);
    if bang {
      HeadTail(TBang, t0);
    } else {
      assert ts == t0;
    }
    ConditionFrom(ts, names, t0);
  }

  lemma EndReads()
    ensures Head([TEol]) == TEol && Tail([TEol]) == []
  {
  }

  /** A line ends after its statement, or after a comment. */
  lemma LineReads(ts: seq<Token>, names: Names, b: Body)
    requires Expression(ts, names) == Ok(b, [TEol]) || Expression(ts, names) == Ok(b, [TComment, TEol])
    ensures StatementLine(ts, names) == b
  {
    hide Expression;
    EndReads();
    assert [TComment, TEol] == [TComment] + [TEol];
    HeadTail(TComment, [TEol]);
  }

  lemma LineFails(ts: seq<Token>, names: Names)
    requires Expression(ts, names) == Error
    ensures StatementLine(ts, names) == Bad
  {
  }

  lemma IfReads(ts: seq<Token>, rest: seq<Token>, names: Names)
    requires ts == [TIf] + rest
    ensures Expression(ts, names) == JumpLine(rest, names)
  {
    hide JumpLine;
    HeadTail(TIf, rest);
  }

  /** if (A cmp obj) goto l, with an operand that may be unknown. */
  lemma JumpReads(ts: seq<Token>, bang: bool, c: Comparator, obj: seq<Token>, o: Option<Operand>, l: string, names: Names)
    requires var after := [TGoto] + ([TIdentifier(l)] + [TEol]);
             && ts == [TIf] + ((if bang then [TBang] else []) + ([TLParen] + ([TA] + ([TCompare(c)] + (obj + ([TRParen] + after))))))
             && CompareObj(obj + ([TRParen] + after), names) == (if o.None? then Error else Ok(o.value, [TRParen] + after))
    ensures StatementLine(ts, names)
         == if o.None? then Bad else Jump(bang, true, c, o.value, Label(l, 0), Label("", 0))
  {
    hide Head, Tail, CompareObj, Condition, GotoLabel, Expression, StatementLine;
    var after := [TGoto] + ([TIdentifier(l)] + [TEol]);
    var t0 := (if bang then [TBang] else []) + ([TLParen] + ([TA] + ([TCompare(c)] + (obj + ([TRParen] + after)))));
    ConditionReads(t0, bang, c, obj, o, after, names);
    IfReads(ts, t0, names);
    if o.None? {
      LineFails(ts, names);
    } else {
      GotoReads(after, l, [TEol]);
      EndReads();
      OneArmParses(t0, names, (bang, c, o.value), after, Label(l, 0), [TEol]);
      LineReads(ts, names, Jump(bang, true, c, o.value, Label(l, 0), Label("", 0)));
    }
  }

  // ----- the operand of a comparison -----

  lemma XOperand(rest: seq<Token>, names: Names)
    ensures CompareObj([TX] + rest, names) == Ok(Operand.RegX, rest)
  {
    HeadTail(TX, rest);
  }

  lemma NumberOperand(k: u32, rest: seq<Token>, names: Names)
    ensures CompareObj([TNumber(k)] + rest, names) == Ok(K(k), rest)
  {
    HeadTail(TNumber(k), rest);
  }

  lemma CallOperand(n: string, rest: seq<Token>, names: Names)
    ensures CompareObj([TIdentifier(n)] + rest, names)
         == if Numbered(names.call(n)).None? then Error else Ok(Numbered(names.call(n)).value, rest)
  {
    HeadTail(TIdentifier(n), rest);
  }

  lemma ArchOperand(a: string, rest: seq<Token>, names: Names)
    requires Head(rest) != TDot
    ensures CompareObj([TArch(a)] + rest, names)
         == if Numbered(names.arch(a)).None? then Error else Ok(Numbered(names.arch(a)).value, rest)
  {
    HeadTail(TArch(a), rest);
  }

  /** A system call of an architecture that is named before it. */
  function CallOn(a: string, n: string, names: Names): Option<Operand> {
    if Numbered(names.arch(a)).None? then None else Numbered(names.callOn(names.arch(a), n))
  }

  lemma DottedOperand(a: string, n: string, rest: seq<Token>, names: Names)
    ensures CompareObj([TArch(a)] + ([TDot] + ([TIdentifier(n)] + rest)), names)
         == if CallOn(a, n, names).None? then Error else Ok(CallOn(a, n, names).value, rest)
  {
    HeadTail(TArch(a), [TDot] + ([TIdentifier(n)] + rest));
    HeadTail(TDot, [TIdentifier(n)] + rest);
    HeadTail(TIdentifier(n), rest);
  }

  // ----- comparisons -----

  /** if ($A cmp $X) goto l */
  lemma CompareX(c: Comparator, l: string, names: Names)
    ensures StatementLine([TIf, TLParen, TA, TCompare(c), TX, TRParen, TGoto, TIdentifier(l), TEol], names)
         == Jump(false, true, c, Operand.RegX, Label(l, 0), Label("", 0))
  {
    hide StatementLine, CompareObj, Head, Tail;
    var after := [TGoto] + ([TIdentifier(l)] + [TEol]);
    var ts := [TIf] + ([] + ([TLParen] + ([TA] + ([TCompare(c)] + ([TX] + ([TRParen] + after))))));
    XOperand([TRParen] + after, names);
    JumpReads(ts, false, c, [TX], Some(Operand.RegX), l, names);
    assert ts == [TIf, TLParen, TA, TCompare(c), TX, TRParen, TGoto, TIdentifier(l), TEol];
  }

  /** if ($A cmp 0x3b) goto l */
  lemma CompareNumber(c: Comparator, k: u32, l: string, names: Names)
    ensures StatementLine([TIf, TLParen, TA, TCompare(c), TNumber(k), TRParen, TGoto, TIdentifier(l), TEol], names)
         == Jump(false, true, c, K(k), Label(l, 0), Label("", 0))
  {
    hide StatementLine, CompareObj, Head, Tail;
    var after := [TGoto] + ([TIdentifier(l)] + [TEol]);
    var ts := [TIf] + ([] + ([TLParen] + ([TA] + ([TCompare(c)] + ([TNumber(k)] + ([TRParen] + after))))));
    NumberOperand(k, [TRParen] + after, names);
    JumpReads(ts, false, c, [TNumber(k)], Some(K(k)), l, names);
    assert ts == [TIf, TLParen, TA, TCompare(c), TNumber(k), TRParen, TGoto, TIdentifier(l), TEol];
  }

  /** if ($A cmp read) goto l: with the number of the system call, or an error line */
  lemma CompareCall(c: Comparator, n: string, l: string, names: Names)
    ensures StatementLine([TIf, TLParen, TA, TCompare(c), TIdentifier(n), TRParen, TGoto, TIdentifier(l), TEol], names)
         == if names.call(n) == 0xffff_ffff then Bad else Jump(false, true, c, K(names.call(n)), Label(l, 0), Label("", 0))
  {
    hide StatementLine, CompareObj, Head, Tail;
    var after := [TGoto] + ([TIdentifier(l)] + [TEol]);
    var ts := [TIf] + ([] + ([TLParen] + ([TA] + ([TCompare(c)] + ([TIdentifier(n)] + ([TRParen] + after))))));
    CallOperand(n, [TRParen] + after, names);
    JumpReads(ts, false, c, [TIdentifier(n)], Numbered(names.call(n)), l, names);
    assert ts == [TIf, TLParen, TA, TCompare(c), TIdentifier(n), TRParen, TGoto, TIdentifier(l), TEol];
  }

  /** if ($A cmp x86_64) goto l: with the number of the architecture */
  lemma CompareArch(c: Comparator, a: string, l: string, names: Names)
    ensures StatementLine([TIf, TLParen, TA, TCompare(c), TArch(a), TRParen, TGoto, TIdentifier(l), TEol], names)
         == if names.arch(a) == 0xffff_ffff then Bad else Jump(false, true, c, K(names.arch(a)), Label(l, 0), Label("", 0))
  {
    hide StatementLine, CompareObj, Head, Tail;
    var after := [TGoto] + ([TIdentifier(l)] + [TEol]);
    var ts := [TIf] + ([] + ([TLParen] + ([TA] + ([TCompare(c)] + ([TArch(a)] + ([TRParen] + after))))));
    HeadTail(TRParen, after);
    ArchOperand(a, [TRParen] + after, names);
    JumpReads(ts, false, c, [TArch(a)], Numbered(names.arch(a)), l, names);
    assert ts == [TIf, TLParen, TA, TCompare(c), TArch(a), TRParen, TGoto, TIdentifier(l), TEol];
  }

  /** if ($A cmp x86_64.read) goto l: with the number of the system call on that architecture */
  lemma CompareDotted(c: Comparator, a: string, n: string, l: string, names: Names)
    ensures StatementLine([TIf, TLParen, TA, TCompare(c), TArch(a), TDot, TIdentifier(n), TRParen, TGoto, TIdentifier(l), TEol], names)
         == if names.arch(a) == 0xffff_ffff || names.callOn(names.arch(a), n) == 0xffff_ffff then Bad
            else Jump(false, true, c, K(names.callOn(names.arch(a), n)), Label(l, 0), Label("", 0))
  {
    hide StatementLine, CompareObj, Head, Tail;
    var after := [TGoto] + ([TIdentifier(l)] + [TEol]);
    var ts := [TIf] + ([] + ([TLParen] + ([TA] + ([TCompare(c)] + ([TArch(a), TDot, TIdentifier(n)] + ([TRParen] + after))))));
    assert [TArch(a), TDot, TIdentifier(n)] + ([TRParen] + after) == [TArch(a)] + ([TDot] + ([TIdentifier(n)] + ([TRParen] + after)));
    DottedOperand(a, n, [TRParen] + after, names);
    JumpReads(ts, false, c, [TArch(a), TDot, TIdentifier(n)], CallOn(a, n, names), l, names);
    assert ts == [TIf, TLParen, TA, TCompare(c), TArch(a), TDot, TIdentifier(n), TRParen, TGoto, TIdentifier(l), TEol];
  }

  /** if !($A cmp k) goto l, else goto m */
  lemma NegatedWithElse(c: Comparator, k: u32, l: string, m: string, names: Names)
    ensures StatementLine([TIf, TBang, TLParen, TA, TCompare(c), TNumber(k), TRParen, TGoto, TIdentifier(l),
                           TComma, TElse, TGoto, TIdentifier(m), TEol], names)
         == Jump(true, true, c, K(k), Label(l, 0), Label(m, 0))
  {
    var after := [TGoto] + ([TIdentifier(l)] + ([TComma] + ([TElse] + ([TGoto] + ([TIdentifier(m)] + [TEol])))));
    var t0 := [TBang] + ([TLParen] + ([TA] + ([TCompare(c)] + ([TNumber(k)] + ([TRParen] + after)))));
    hide *;
    NegatedReads(t0, c, k, l, m, names);
    assert after == [TGoto, TIdentifier(l), TComma, TElse, TGoto, TIdentifier(m), TEol];
    var before := [TIf, TBang, TLParen, TA, TCompare(c), TNumber(k), TRParen];
    Joined(before, after);
    assert [TIf] + t0 == before + after;
    assert before + after == [TIf, TBang, TLParen, TA, TCompare(c), TNumber(k), TRParen, TGoto, TIdentifier(l),
                              TComma, TElse, TGoto, TIdentifier(m), TEol];
  }

  /** Seven tokens and what follows them. */
  lemma Joined(ts: seq<Token>, rest: seq<Token>)
    requires |ts| == 7
    ensures [ts[0]] + ([ts[1]] + ([ts[2]] + ([ts[3]] + ([ts[4]] + ([ts[5]] + ([ts[6]] + rest)))))) == ts + rest
  {
  }

  lemma NegatedReads(t0: seq<Token>, c: Comparator, k: u32, l: string, m: string, names: Names)
    requires var after := [TGoto] + ([TIdentifier(l)] + ([TComma] + ([TElse] + ([TGoto] + ([TIdentifier(m)] + [TEol])))));
             t0 == [TBang] + ([TLParen] + ([TA] + ([TCompare(c)] + ([TNumber(k)] + ([TRParen] + after)))))
    ensures StatementLine([TIf] + t0, names) == Jump(true, true, c, K(k), Label(l, 0), Label(m, 0))
  {
    hide StatementLine, CompareObj, Condition, Expression, JumpLine, Head, Tail;
    var after := [TGoto] + ([TIdentifier(l)] + ([TComma] + ([TElse] + ([TGoto] + ([TIdentifier(m)] + [TEol])))));
    NumberOperand(k, [TRParen] + after, names);
    ConditionReads(t0, true, c, [TNumber(k)], Some(K(k)), after, names);
    ArmsRead(t0, (true, c, K(k)), l, m, names);
    IfReads([TIf] + t0, t0, names);
    LineReads([TIf] + t0, names, Jump(true, true, c, K(k), Label(l, 0), Label(m, 0)));
  }

  lemma ArmsRead(t0: seq<Token>, cond: (bool, Comparator, Operand), l: string, m: string, names: Names)
    requires Condition(t0, names) == Ok(cond, [TGoto] + ([TIdentifier(l)] + ([TComma] + ([TElse] + ([TGoto] + ([TIdentifier(m)] + [TEol]))))))
    ensures JumpLine(t0, names) == Ok(Jump(cond.0, true, cond.1, cond.2, Label(l, 0), Label(m, 0)), [TEol])
  {
    hide Condition, GotoLabel, JumpLine, Head, Tail;
    var last := [TGoto] + ([TIdentifier(m)] + [TEol]);
    var afterJt := [TComma] + ([TElse] + last);
    GotoReads([TGoto] + ([TIdentifier(l)] + afterJt), l, afterJt);
    GotoReads(last, m, [TEol]);
    BothArmsParse(t0, names, cond, [TGoto] + ([TIdentifier(l)] + afterJt), Label(l, 0), last, Label(m, 0), [TEol]);
  }

  // ----- the other statements -----

  /** goto l */
  lemma GotoSentence(l: string, names: Names)
    ensures StatementLine([TGoto, TIdentifier(l), TEol], names)
         == Jump(false, false, EqualEqual, K(0), Label(l, 0), Label("", 0))
  {
    var ts := [TGoto] + ([TIdentifier(l)] + [TEol]);
    HeadTail(TGoto, [TIdentifier(l)] + [TEol]);
    HeadTail(TIdentifier(l), [TEol]);
    EndReads();
    hide Head, Tail;
    LineReads(ts, names, Jump(false, false, EqualEqual, K(0), Label(l, 0), Label("", 0)));
    assert ts == [TGoto, TIdentifier(l), TEol];
  }

  /** return $A, return 0x7fff0000 and return ALLOW */
  lemma ReturnSentence(k: u32, a: Action, names: Names)
    ensures StatementLine([TReturn, TA, TEol], names) == Return(RetA, Verdict(KillProc, 0))
    ensures StatementLine([TReturn, TNumber(k), TEol], names) == Return(RetNumber(k), Verdict(KillProc, 0))
    ensures StatementLine([TReturn, TAction(a), TEol], names) == Return(RetAction(a, 0), Verdict(KillProc, 0))
  {
    ReturnReads(TA, RetA, names);
    ReturnReads(TNumber(k), RetNumber(k), names);
    ReturnReads(TAction(a), RetAction(a, 0), names);
  }

  lemma ReturnReads(t: Token, r: RetObj, names: Names)
    requires (t == TA && r == RetA) || (t.TNumber? && r == RetNumber(t.k)) || (t.TAction? && r == RetAction(t.action, 0))
    ensures StatementLine([TReturn, t, TEol], names) == Return(r, Verdict(KillProc, 0))
  {
    var ts := [TReturn] + ([t] + [TEol]);
    HeadTail(TReturn, [t] + [TEol]);
    HeadTail(t, [TEol]);
    EndReads();
    hide Head, Tail;
    LineReads(ts, names, Return(r, Verdict(KillProc, 0)));
    assert ts == [TReturn, t, TEol];
  }

  /** return ERRNO(k): only for the actions that carry data. */
  lemma ReturnDataSentence(a: Action, k: u32, names: Names)
    ensures StatementLine([TReturn, TAction(a), TLParen, TNumber(k), TRParen, TEol], names)
         == if a == Trace || a == Trap || a == Errno then Return(RetAction(a, k), Verdict(KillProc, 0)) else Bad
  {
    var t1 := [TLParen] + ([TNumber(k)] + ([TRParen] + [TEol]));
    var ts := [TReturn] + ([TAction(a)] + t1);
    HeadTail(TReturn, [TAction(a)] + t1);
    HeadTail(TAction(a), t1);
    HeadTail(TLParen, [TNumber(k)] + ([TRParen] + [TEol]));
    HeadTail(TNumber(k), [TRParen] + [TEol]);
    HeadTail(TRParen, [TEol]);
    EndReads();
    hide Head, Tail;
    if a == Trace || a == Trap || a == Errno {
      LineReads(ts, names, Return(RetAction(a, k), Verdict(KillProc, 0)));
    }
    assert ts == [TReturn, TAction(a), TLParen, TNumber(k), TRParen, TEol];
  }

  // ----- assignments -----

  /** A word in brackets. */
  lemma BracketReads(k: u32, rest: seq<Token>)
    ensures BracketNum([TLBracket] + ([TNumber(k)] + ([TRBracket] + rest))) == Ok(k, rest)
  {
    HeadTail(TLBracket, [TNumber(k)] + ([TRBracket] + rest));
    HeadTail(TNumber(k), [TRBracket] + rest);
    HeadTail(TRBracket, rest);
  }

  /** The left side of an assignment. */
  predicate IsLeft(ts: seq<Token>, o: Obj) {
    match o
    case VarA => ts == [TA]
    case VarX => ts == [TX]
    case MemWord(k) => ts == [TMem, TLBracket, TNumber(k), TRBracket]
    case _ => false
  }

  predicate IsRight(ts: seq<Token>, o: Obj) {
    match o
    case VarA => ts == [TA]
    case VarX => ts == [TX]
    case MemWord(k) => ts == [TMem, TLBracket, TNumber(k), TRBracket]
    case Number(k) => ts == [TNumber(k)]
    case DataLen => ts == [TLen]
    case SyscallNr => ts == [TSyscall]
    case ArchNr => ts == [TArchAttr]
    case LowPc => ts == [TLowPc]
    case HighPc => ts == [THighPc]
    case LowArg(k) => ts == [TLowArg, TLBracket, TNumber(k), TRBracket]
    case HighArg(k) => ts == [THighArg, TLBracket, TNumber(k), TRBracket]
  }

  predicate IsOperator(ts: seq<Token>, op: AssignOp) {
    match op
    case OpTo(o) => ts == [TAssign(o)]
    case Equal => ts == [TEqual]
    case Negative => ts == [TEqual, TMinus]
  }

  lemma LeftReads(ts: seq<Token>, o: Obj, rest: seq<Token>)
    requires IsLeft(ts, o)
    ensures Left(ts + rest) == Ok(o, rest)
  {
    hide BracketNum, Head, Tail;
    match o
    case VarA => HeadTail(TA, rest);
    case VarX => HeadTail(TX, rest);
    case MemWord(k) => IndexedReads(TMem, k, rest);
  }

  lemma IndexedReads(t: Token, k: u32, rest: seq<Token>)
    ensures var ts := [t, TLBracket, TNumber(k), TRBracket] + rest;
            Head(ts) == t && BracketNum(Tail(ts)) == Ok(k, rest)
  {
    hide BracketNum;
    var inner := [TLBracket] + ([TNumber(k)] + ([TRBracket] + rest));
    assert [t, TLBracket, TNumber(k), TRBracket] + rest == [t] + inner;
    HeadTail(t, inner);
    BracketReads(k, rest);
  }

  lemma RightReads(ts: seq<Token>, o: Obj, rest: seq<Token>)
    requires IsRight(ts, o)
    ensures Right(ts + rest) == Ok(o, rest)
  {
    hide BracketNum, Head, Tail;
    match o
    case MemWord(k) => IndexedReads(TMem, k, rest);
    case LowArg(k) => IndexedReads(TLowArg, k, rest);
    case HighArg(k) => IndexedReads(THighArg, k, rest);
    case _ => HeadTail(ts[0], rest);
  }

  lemma OperatorReads(ts: seq<Token>, op: AssignOp, rest: seq<Token>)
    requires IsOperator(ts, op) && Head(rest) != TMinus
    ensures Operator(ts + rest) == Ok(op, rest)
  {
    hide Head, Tail;
    HeadTail(ts[0], rest);
    if op.Negative? {
      assert ts + rest == [TEqual] + ([TMinus] + rest);
      HeadTail(TEqual, [TMinus] + rest);
      HeadTail(TMinus, rest);
    }
  }

  /** left op right, whatever stands on either side. */
  lemma AssignSentence(l: seq<Token>, left: Obj, o: seq<Token>, op: AssignOp, r: seq<Token>, right: Obj, names: Names)
    requires IsLeft(l, left) && IsOperator(o, op) && IsRight(r, right)
    ensures StatementLine(l + o + r + [TEol], names) == Assign(left, op, right)
  {
    hide *;
    AssignReads(l, left, o, op, r, right, names);
    LineReads(l + (o + (r + [TEol])), names, Assign(left, op, right));
    Associates(l, o, r, [TEol]);
  }

  lemma Associates(l: seq<Token>, o: seq<Token>, r: seq<Token>, rest: seq<Token>)
    ensures l + (o + (r + rest)) == l + o + r + rest
  {
  }

  lemma AssignReads(l: seq<Token>, left: Obj, o: seq<Token>, op: AssignOp, r: seq<Token>, right: Obj, names: Names)
    requires IsLeft(l, left) && IsOperator(o, op) && IsRight(r, right)
    ensures Expression(l + (o + (r + [TEol])), names) == Ok(Assign(left, op, right), [TEol])
  {
    hide Left, Right, Operator, IsLeft, IsRight, IsOperator, Head, Tail;
    var rest := r + [TEol];
    LeftReads(l, left, o + rest);
    RightBegins(r, right, [TEol]);
    OperatorReads(o, op, rest);
    RightReads(r, right, [TEol]);
    LeftBegins(l, left, o + rest);
  }

  lemma RightBegins(ts: seq<Token>, o: Obj, rest: seq<Token>)
    requires IsRight(ts, o)
    ensures Head(ts + rest) != TMinus
  {
  }

  lemma LeftBegins(ts: seq<Token>, o: Obj, rest: seq<Token>)
    requires IsLeft(ts, o)
    ensures Head(ts + rest) == TA || Head(ts + rest) == TX || Head(ts + rest) == TMem
  {
  }

  // ----- lines -----

  /** An empty line, a comment, and a comment behind a statement. */
  lemma EmptySentence(names: Names)
    ensures StatementLine([TEol], names) == Empty && StatementLine([TComment, TEol], names) == Empty
  {
    EndReads();
    LineReads([TEol], names, Empty);
    LineReads([TComment, TEol], names, Empty);
  }

  /** A label, and up to five numbers behind it that do not matter. */
  lemma LabelledSentence(l: string, numbers: seq<u32>, ts: seq<Token>, names: Names)
    requires |numbers| <= 5 && (|numbers| < 5 ==> !Head(ts).TNumber? && Head(ts) != TOverflow)
    ensures ParseLine([TLabelDecl(l)] + (seq(|numbers|, i requires 0 <= i < |numbers| => TNumber(numbers[i])) + ts), names)
         == Line(l, StatementLine(ts, names))
  {
    hide StatementLine, SkipNumbers, Head, Tail;
    var ns := seq(|numbers|, i requires 0 <= i < |numbers| => TNumber(numbers[i]));
    HeadTail(TLabelDecl(l), ns + ts);
    FewerPassed(ns, ts, 0);
  }

  lemma {:induction false} FewerPassed(ns: seq<Token>, ts: seq<Token>, count: nat)
    requires count + |ns| <= 5 && forall i :: 0 <= i < |ns| ==> ns[i].TNumber?
    requires count + |ns| < 5 ==> !Head(ts).TNumber? && Head(ts) != TOverflow
    ensures SkipNumbers(ns + ts, count) == Ok((), ts)
    decreases |ns|
  {
    if ns == [] {
      assert ns + ts == ts;
    } else {
      assert ns + ts == [ns[0]] + (ns[1..] + ts);
      HeadTail(ns[0], ns[1..] + ts);
      FewerPassed(ns[1..], ts, count + 1);
    }
  }

  /** Nothing else may come behind a statement. */
  lemma NothingBehind(ts: seq<Token>, names: Names, b: Body, t: Token, rest: seq<Token>)
    requires Expression(ts, names) == Ok(b, [t] + rest) && t != TEol && t != TComment
    ensures StatementLine(ts, names) == Bad
  {
    hide Expression;
    HeadTail(t, rest);
  }
}
