/** The grammar of a line: what the parser makes of its tokens. */
module Grammar {
  import opened Word
  import opened Bpf
  import opened Statements
  import opened Parser
  import opened Scanner

  /** Numbers of system calls and architectures by name; all ones for unknown names. */
  datatype Names = Names(call: string -> u32, arch: string -> u32, callOn: (u32, string) -> u32)

  /** What is read from some tokens and the tokens after it, or an error. */
  datatype Parsed<+T> = Error | Ok(value: T, rest: seq<Token>)

  function Head(ts: seq<Token>): Token {
    if ts == [] then TEof else ts[0]
  }

  function Tail(ts: seq<Token>): seq<Token> {
    if ts == [] then [] else ts[1..]
  }

  function MatchNumber(ts: seq<Token>): Parsed<u32> {
    if Head(ts).TNumber? then Ok(Head(ts).k, Tail(ts)) else Error
  }

  function BracketNum(ts: seq<Token>): Parsed<u32> {
    if Head(ts) != TLBracket then Error
    else
      match MatchNumber(Tail(ts))
      case Error => Error
      case Ok(k, rest) => if Head(rest) == TRBracket then Ok(k, Tail(rest)) else Error
  }

  /** A number in parentheses, zero when it is left out. */
  function ParenNum(ts: seq<Token>): Parsed<u32> {
    if Head(ts) != TLParen then Ok(0, ts)
    else
      match MatchNumber(Tail(ts))
      case Error => Error
      case Ok(k, rest) => if Head(rest) == TRParen then Ok(k, Tail(rest)) else Error
  }

  function ReturnLine(ts: seq<Token>): Parsed<Body> {
    var ret: Parsed<RetObj> :=
      match Head(ts)
      case TAction(a) =>
        if a.HasData() then
          match ParenNum(Tail(ts))
          case Error => Error
          case Ok(k, rest) => Ok(RetAction(a, k), rest)
        else Ok(RetAction(a, 0), Tail(ts))
      case TNumber(k) => Ok(RetNumber(k), Tail(ts))
      case TA => Ok(RetA, Tail(ts))
      case _ => Error;
    match ret
    case Error => Error
    case Ok(r, rest) => Ok(Return(r, Verdict(KillProc, 0)), rest)
  }

  function LabelName(ts: seq<Token>): Parsed<Label> {
    if Head(ts).TIdentifier? then Ok(Label(Head(ts).text, 0), Tail(ts)) else Error
  }

  function Known(nr: u32, rest: seq<Token>): Parsed<Operand> {
    if nr == U32_MAX then Error else Ok(K(nr), rest)
  }

  function CompareObj(ts: seq<Token>, names: Names): Parsed<Operand> {
    match Head(ts)
    case TX => Ok(Operand.RegX, Tail(ts))
    case TNumber(k) => Ok(K(k), Tail(ts))
    case TIdentifier(name) => Known(names.call(name), Tail(ts))
    case TArch(name) =>
      var rest := Tail(ts);
      if Head(rest) != TDot then Known(names.arch(name), rest)
      else if !Head(Tail(rest)).TIdentifier? || names.arch(name) == U32_MAX then Error
      else Known(names.callOn(names.arch(name), Head(Tail(rest)).text), Tail(Tail(rest)))
    case _ => Error
  }

  /** The condition of a jump: negation, comparison and operand. */
  function Condition(ts: seq<Token>, names: Names): Parsed<(bool, Comparator, Operand)> {
    var bang := Head(ts) == TBang;
    var open := if bang then Tail(ts) else ts;
    if Head(open) != TLParen || Head(Tail(open)) != TA || !Head(Tail(Tail(open))).TCompare? then Error
    else
      match CompareObj(Tail(Tail(Tail(open))), names)
      case Error => Error
      case Ok(obj, rest) =>
        if Head(rest) == TRParen then Ok((bang, Head(Tail(Tail(open))).cmp, obj), Tail(rest)) else Error
  }

  function GotoLabel(ts: seq<Token>): Parsed<Label> {
    if Head(ts) != TGoto then Error else LabelName(Tail(ts))
  }

  function JumpLine(ts: seq<Token>, names: Names): Parsed<Body> {
    match Condition(ts, names)
    case Error => Error
    case Ok(c, afterCondition) =>
      match GotoLabel(afterCondition)
      case Error => Error
      case Ok(jt, afterJt) =>
        if Head(afterJt) != TComma then Ok(Jump(c.0, true, c.1, c.2, jt, NO_LABEL), afterJt)
        else if Head(Tail(afterJt)) != TElse then Error
        else
          match GotoLabel(Tail(Tail(afterJt)))
          case Error => Error
          case Ok(jf, rest) => Ok(Jump(c.0, true, c.1, c.2, jt, jf), rest)
  }

  function JaLine(ts: seq<Token>): Parsed<Body> {
    match LabelName(ts)
    case Error => Error
    case Ok(jt, rest) => Ok(Jump(false, false, EqualEqual, K(0), jt, NO_LABEL), rest)
  }

  /** What an assignment writes; the line starts with it. */
  function Left(ts: seq<Token>): Parsed<Obj> {
    match Head(ts)
    case TA => Ok(VarA, Tail(ts))
    case TX => Ok(VarX, Tail(ts))
    case TMem =>
      (match BracketNum(Tail(ts))
       case Error => Error
       case Ok(k, rest) => Ok(MemWord(k), rest))
    case _ => Error
  }

  function Operator(ts: seq<Token>): Parsed<AssignOp> {
    match Head(ts)
    case TAssign(op) => Ok(OpTo(op), Tail(ts))
    case TEqual => if Head(Tail(ts)) == TMinus then Ok(Negative, Tail(Tail(ts))) else Ok(Equal, Tail(ts))
    case _ => Error
  }

  function Right(ts: seq<Token>): Parsed<Obj> {
    match Head(ts)
    case TA => Ok(VarA, Tail(ts))
    case TX => Ok(VarX, Tail(ts))
    case TLen => Ok(DataLen, Tail(ts))
    case TSyscall => Ok(SyscallNr, Tail(ts))
    case TArchAttr => Ok(ArchNr, Tail(ts))
    case TLowPc => Ok(LowPc, Tail(ts))
    case THighPc => Ok(HighPc, Tail(ts))
    case TNumber(k) => Ok(Number(k), Tail(ts))
    case TMem =>
      (match BracketNum(Tail(ts))
       case Error => Error
       case Ok(k, rest) => Ok(MemWord(k), rest))
    case TLowArg =>
      (match BracketNum(Tail(ts))
       case Error => Error
       case Ok(k, rest) => Ok(LowArg(k), rest))
    case THighArg =>
      (match BracketNum(Tail(ts))
       case Error => Error
       case Ok(k, rest) => Ok(HighArg(k), rest))
    case _ => Error
  }

  function AssignLine(ts: seq<Token>): Parsed<Body> {
    match Left(ts)
    case Error => Error
    case Ok(left, afterLeft) =>
      match Operator(afterLeft)
      case Error => Error
      case Ok(op, afterOp) =>
        match Right(afterOp)
        case Error => Error
        case Ok(right, rest) => Ok(Assign(left, op, right), rest)
  }

  function Expression(ts: seq<Token>, names: Names): Parsed<Body> {
    match Head(ts)
    case TEol => Ok(Empty, ts)
    case TComment => Ok(Empty, ts)
    case TReturn => ReturnLine(Tail(ts))
    case TIf => JumpLine(Tail(ts), names)
    case TGoto => JaLine(Tail(ts))
    case TA => AssignLine(ts)
    case TX => AssignLine(ts)
    case TMem => AssignLine(ts)
    case _ => Error
  }

  /** The statement of a line, after which only a comment may come. */
  function StatementLine(ts: seq<Token>, names: Names): Body {
    match Expression(ts, names)
    case Error => Bad
    case Ok(b, rest) =>
      var end := if Head(rest) == TComment then Tail(rest) else rest;
      if Head(end) == TEol then b else Bad
  }

  /** The numbers after a label, of which at most five are passed over. */
  function SkipNumbers(ts: seq<Token>, count: nat): Parsed<()>
    requires count <= 5
    decreases 5 - count
  {
    if count == 5 then Ok((), ts)
    else if Head(ts) == TOverflow then Error
    else if !Head(ts).TNumber? then Ok((), ts)
    else SkipNumbers(Tail(ts), count + 1)
  }

  /** parse_line, but for the numbering. */
  function ParseLine(ts: seq<Token>, names: Names): Line {
    if Head(ts).TLabelDecl? then
      match SkipNumbers(Tail(ts), 0)
      case Error => Line(Head(ts).text, Bad)
      case Ok(_, rest) => Line(Head(ts).text, StatementLine(rest, names))
    else Line("", StatementLine(ts, names))
  }

  /** A method's result and the tokens it leaves are what the grammar says; after an error the
      rest of the line is skipped, so where it stopped does not matter. */
  predicate Agrees<T(==)>(p: Parsed<T>, r: Option<T>, rest: seq<Token>) {
    match p
    case Error => r == None
    case Ok(value, after) => r == Some(value) && rest == after
  }

  /** Condition, where it begins as one and where it does not. */
  lemma NoCondition(ts: seq<Token>, names: Names, open: seq<Token>)
    requires open == if Head(ts) == TBang then Tail(ts) else ts
    requires Head(open) != TLParen || Head(Tail(open)) != TA || !Head(Tail(Tail(open))).TCompare?
    ensures Condition(ts, names) == Error
  {
    hide Head, Tail;
  }

  lemma ConditionFrom(ts: seq<Token>, names: Names, open: seq<Token>)
    requires open == if Head(ts) == TBang then Tail(ts) else ts
    requires Head(open) == TLParen && Head(Tail(open)) == TA && Head(Tail(Tail(open))).TCompare?
    ensures Condition(ts, names)
         == match CompareObj(Tail(Tail(Tail(open))), names)
            case Error => Error
            case Ok(obj, rest) =>
              if Head(rest) == TRParen then Ok((Head(ts) == TBang, Head(Tail(Tail(open))).cmp, obj), Tail(rest)) else Error
  {
    hide Head, Tail, CompareObj;
  }

  /** The parser's position in the tokens of a line. */
  class LineParser {
    const tokens: seq<Token>
    const names: Names
    var next: nat

    constructor (tokens: seq<Token>, names: Names)
      ensures this.tokens == tokens && this.names == names && next == 0
    {
      this.tokens, this.names, next := tokens, names, 0;
    }

    ghost predicate Valid()
      reads this
    {
      next <= |tokens|
    }

    ghost function Rest(): seq<Token>
      requires Valid()
      reads this
    {
      tokens[next..]
    }

    function Peek(): (t: Token)
      requires Valid()
      reads this
      ensures t == Head(Rest())
    {
      if next < |tokens| then tokens[next] else TEof
    }

    method Advance()
      requires Valid()
      modifies this`next
      ensures Valid() && Rest() == Tail(old(Rest()))
    {
      if next < |tokens| {
        next := next + 1;
      }
    }

    method Match(t: Token) returns (ok: bool)
      requires Valid()
      modifies this`next
      ensures Valid() && ok == (Head(old(Rest())) == t)
      ensures Rest() == if ok then Tail(old(Rest())) else old(Rest())
    {
      ok := Peek() == t;
      if ok {
        Advance();
      }
    }

    method ParseNumber() returns (r: Option<u32>)
      requires Valid()
      modifies this`next
      ensures Valid() && Agrees(MatchNumber(old(Rest())), r, Rest())
    {
      r := None;
      if Peek().TNumber? {
        r := Some(Peek().k);
        Advance();
      }
    }

    method ParseBracketNum() returns (r: Option<u32>)
      requires Valid()
      modifies this`next
      ensures Valid() && Agrees(BracketNum(old(Rest())), r, Rest())
    {
      var ok := Match(TLBracket);
      if !ok {
        return None;
      }
      r := ParseNumber();
      if r.Some? {
        ok := Match(TRBracket);
        if !ok {
          return None;
        }
      }
    }

    method ParseParenNum() returns (r: Option<u32>)
      requires Valid()
      modifies this`next
      ensures Valid() && Agrees(ParenNum(old(Rest())), r, Rest())
    {
      var ok := Match(TLParen);
      if !ok {
        return Some(0);
      }
      r := ParseNumber();
      if r.Some? {
        ok := Match(TRParen);
        if !ok {
          return None;
        }
      }
    }

    method ParseReturn() returns (r: Option<Body>)
      requires Valid()
      modifies this`next
      ensures Valid() && Agrees(ReturnLine(old(Rest())), r, Rest())
    {
      hide ParenNum;
      var none := Verdict(KillProc, 0);
      var t := Peek();
      if t.TAction? && t.action.HasData() {
        Advance();
        var data := ParseParenNum();
        r := if data.Some? then Some(Return(RetAction(t.action, data.value), none)) else None;
      } else if t.TNumber? {
        Advance();
        r := Some(Return(RetNumber(t.k), none));
      } else if t.TAction? {
        Advance();
        r := Some(Return(RetAction(t.action, 0), none));
      } else if t.TA? {
        Advance();
        r := Some(Return(RetA, none));
      } else {
        r := None;
      }
    }

    method ParseLabel() returns (r: Option<Label>)
      requires Valid()
      modifies this`next
      ensures Valid() && Agrees(LabelName(old(Rest())), r, Rest())
    {
      var t := Peek();
      r := None;
      if t.TIdentifier? {
        Advance();
        r := Some(Label(t.text, 0));
      }
    }

    method ParseGoto() returns (r: Option<Label>)
      requires Valid()
      modifies this`next
      ensures Valid() && Agrees(GotoLabel(old(Rest())), r, Rest())
    {
      var ok := Match(TGoto);
      if !ok {
        return None;
      }
      r := ParseLabel();
    }

    method ParseCompareObj() returns (r: Option<Operand>)
      requires Valid()
      modifies this`next
      ensures Valid() && Agrees(CompareObj(old(Rest()), names), r, Rest())
    {
      var t := Peek();
      r := None;
      if t.TX? {
        Advance();
        r := Some(Operand.RegX);
      } else if t.TNumber? {
        Advance();
        r := Some(K(t.k));
      } else if t.TIdentifier? {
        Advance();
        var nr := names.call(t.text);
        r := if nr == U32_MAX then None else Some(K(nr));
      } else if t.TArch? {
        Advance();
        var arch := names.arch(t.name);
        var dot := Match(TDot);
        if !dot {
          r := if arch == U32_MAX then None else Some(K(arch));
        } else {
          var call := Peek();
          if call.TIdentifier? && arch != U32_MAX {
            var nr := names.callOn(arch, call.text);
            Advance();
            r := if nr == U32_MAX then None else Some(K(nr));
          }
        }
      }
    }

    method ParseCondition() returns (r: Option<(bool, Comparator, Operand)>)
      requires Valid()
      modifies this`next
      ensures Valid() && Agrees(Condition(old(Rest()), names), r, Rest())
    {
      hide CompareObj, Condition, Head, Tail;
      ghost var ts := Rest();
      var bang := Match(TBang);
      ghost var open := Rest();
      var ok := Match(TLParen);
      if !ok {
        NoCondition(ts, names, open);
        return None;
      }
      ok := Match(TA);
      if !ok {
        NoCondition(ts, names, open);
        return None;
      }
      var t := Peek();
      if !t.TCompare? {
        NoCondition(ts, names, open);
        return None;
      }
      Advance();
      ConditionFrom(ts, names, open);
      var obj := ParseCompareObj();
      if obj.None? {
        return None;
      }
      ok := Match(TRParen);
      r := if ok then Some((bang, t.cmp, obj.value)) else None;
    }

    method ParseJump() returns (r: Option<Body>)
      requires Valid()
      modifies this`next
      ensures Valid() && Agrees(JumpLine(old(Rest()), names), r, Rest())
    {
      hide Condition, GotoLabel, Head, Tail;
      var c := ParseCondition();
      if c.None? {
        return None;
      }
      var jt := ParseGoto();
      if jt.None? {
        return None;
      }
      var comma := Match(TComma);
      if !comma {
        return Some(Jump(c.value.0, true, c.value.1, c.value.2, jt.value, NO_LABEL));
      }
      var ok := Match(TElse);
      if !ok {
        return None;
      }
      var jf := ParseGoto();
      r := if jf.Some? then Some(Jump(c.value.0, true, c.value.1, c.value.2, jt.value, jf.value)) else None;
    }

    method ParseJa() returns (r: Option<Body>)
      requires Valid()
      modifies this`next
      ensures Valid() && Agrees(JaLine(old(Rest())), r, Rest())
    {
      var jt := ParseLabel();
      r := if jt.Some? then Some(Jump(false, false, EqualEqual, K(0), jt.value, NO_LABEL)) else None;
    }

    method ParseLeft() returns (r: Option<Obj>)
      requires Valid()
      modifies this`next
      ensures Valid() && Agrees(Left(old(Rest())), r, Rest())
    {
      hide BracketNum;
      var t := Peek();
      Advance();
      match t
      case TA => r := Some(VarA);
      case TX => r := Some(VarX);
      case TMem =>
        var k := ParseBracketNum();
        r := if k.Some? then Some(MemWord(k.value)) else None;
      case _ => r := None;
    }

    method ParseOperator() returns (r: Option<AssignOp>)
      requires Valid()
      modifies this`next
      ensures Valid() && Agrees(Operator(old(Rest())), r, Rest())
    {
      var t := Peek();
      r := None;
      if t.TAssign? {
        Advance();
        r := Some(OpTo(t.op));
      } else if t.TEqual? {
        Advance();
        var minus := Match(TMinus);
        r := Some(if minus then Negative else Equal);
      }
    }

    method ParseRight() returns (r: Option<Obj>)
      requires Valid()
      modifies this`next
      ensures Valid() && Agrees(Right(old(Rest())), r, Rest())
    {
      hide BracketNum;
      var t := Peek();
      Advance();
      match t
      case TA => r := Some(VarA);
      case TX => r := Some(VarX);
      case TLen => r := Some(DataLen);
      case TSyscall => r := Some(SyscallNr);
      case TArchAttr => r := Some(ArchNr);
      case TLowPc => r := Some(LowPc);
      case THighPc => r := Some(HighPc);
      case TNumber(k) => r := Some(Number(k));
      case TMem =>
        var k := ParseBracketNum();
        r := if k.Some? then Some(MemWord(k.value)) else None;
      case TLowArg =>
        var k := ParseBracketNum();
        r := if k.Some? then Some(LowArg(k.value)) else None;
      case THighArg =>
        var k := ParseBracketNum();
        r := if k.Some? then Some(HighArg(k.value)) else None;
      case _ => r := None;
    }

    method ParseAssign() returns (r: Option<Body>)
      requires Valid()
      modifies this`next
      ensures Valid() && Agrees(AssignLine(old(Rest())), r, Rest())
    {
      hide Left, Operator, Right;
      var left := ParseLeft();
      if left.None? {
        return None;
      }
      var op := ParseOperator();
      if op.None? {
        return None;
      }
      var right := ParseRight();
      r := if right.Some? then Some(Assign(left.value, op.value, right.value)) else None;
    }

    method ParseExpression() returns (r: Option<Body>)
      requires Valid()
      modifies this`next
      ensures Valid() && Agrees(Expression(old(Rest()), names), r, Rest())
    {
      hide ReturnLine, JumpLine, JaLine, AssignLine;
      var t := Peek();
      r := None;
      if t.TEol? || t.TComment? {
        r := Some(Empty);
      } else if t.TReturn? {
        Advance();
        r := ParseReturn();
      } else if t.TIf? {
        Advance();
        r := ParseJump();
      } else if t.TGoto? {
        Advance();
        r := ParseJa();
      } else if t.TA? || t.TX? || t.TMem? {
        r := ParseAssign();
      }
    }

    method ParseStatement() returns (b: Body)
      requires Valid()
      modifies this`next
      ensures b == StatementLine(old(Rest()), names)
    {
      hide Expression;
      var r := ParseExpression();
      if r.None? {
        return Bad;
      }
      var _ := Match(TComment);
      var ok := Match(TEol);
      b := if ok then r.value else Bad;
    }

    /** The numbers that a printed line has after its label; false when one is too large. */
    method PassNumbers() returns (ok: bool)
      requires Valid()
      modifies this`next
      ensures Valid() && Agrees(SkipNumbers(old(Rest()), 0), if ok then Some(()) else None, Rest())
    {
      var count := 0;
      while count < 5
        invariant Valid() && 0 <= count <= 5
        invariant SkipNumbers(Rest(), count) == SkipNumbers(old(Rest()), 0)
      {
        if Peek() == TOverflow {
          return false;
        }
        if !Peek().TNumber? {
          return true;
        }
        Advance();
        count := count + 1;
      }
      ok := true;
    }

    /** parse_line, but for the numbering. */
    method Parse() returns (line: Line)
      requires next == 0
      modifies this`next
      ensures line == ParseLine(tokens, names)
    {
      hide StatementLine, SkipNumbers;
      assert Rest() == tokens;
      var t := Peek();
      if t.TLabelDecl? {
        Advance();
        var ok := PassNumbers();
        if !ok {
          return Line(t.text, Bad);
        }
        var b := ParseStatement();
        return Line(t.text, b);
      }
      var b := ParseStatement();
      line := Line("", b);
    }
  }
}
