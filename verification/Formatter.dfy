/** The printer: statements as text, in pieces that are each a token, a space or a comment. */
module Formatter {
  import opened Word
  import opened Bpf
  import opened Statements
  import opened Scanner

  datatype Piece = Tok(t: Token) | Hex(k: u32, width: nat) | Dec(k: u32) | Space | Note(text: string)

  function DigitChar(d: nat): char
    requires d < 16
  {
    if d < 10 then ('0' as nat + d) as char else ('a' as nat + d - 10) as char
  }

  lemma LastDigit(k: nat, base: nat)
    requires base == 10 || base == 16
    ensures k % base < base && (k >= base ==> k / base < k)
  {
    if base == 10 {
      assert k % 10 < 10 && (k >= 10 ==> k / 10 < k);
    }
  }

  /** A number without leading zeros. */
  function ToDigits(k: nat, base: nat): (s: string)
    requires base == 10 || base == 16
    ensures s != ""
  {
    LastDigit(k, base);
    (if k < base then "" else ToDigits(k / base, base)) + [DigitChar(k % base)]
  }

  function Zeros(n: nat): string {
    if n == 0 then "" else "0" + Zeros(n - 1)
  }

  function Padded(s: string, width: nat): string {
    if |s| < width then Zeros(width - |s|) + s else s
  }

  /** The default name of a statement's label. */
  function DefaultLabel(n: nat): string {
    "L" + Padded(ToDigits(n, 10), 4)
  }

  function AluSpelling(op: AluOp): string {
    match op
    case Add => "+="
    case Sub => "-="
    case Mul => "*="
    case Div => "/="
    case Lsh => "<<="
    case Rsh => ">>="
    case And => "&="
    case Or => "|="
    case Xor => "^="
  }

  function CompareSpelling(c: Comparator): string {
    match c
    case EqualEqual => "=="
    case BangEqual => "!="
    case GreaterEqual => ">="
    case GreaterThan => ">"
    case LessEqual => "<="
    case LessThan => "<"
    case AndBits => "&"
  }

  function ActionSpelling(a: Action): string {
    match a
    case KillProc => "KILL_PROCESS"
    case Kill => "KILL"
    case Allow => "ALLOW"
    case Notify => "NOTIFY"
    case Log => "LOG"
    case Trace => "TRACE"
    case Trap => "TRAP"
    case Errno => "ERRNO"
  }

  function Spelling(t: Token): (s: string)
    ensures Printable(t) ==> s != ""
  {
    match t
    case TReturn => "return"
    case TIf => "if"
    case TGoto => "goto"
    case TElse => "else"
    case TComma => ","
    case TDot => "."
    case TA => "$A"
    case TX => "$X"
    case TMem => "$mem"
    case TLen => "$scmp_data_len"
    case TSyscall => "$syscall_nr"
    case TArchAttr => "$arch"
    case TLowPc => "$low_pc"
    case THighPc => "$high_pc"
    case TLowArg => "$low_args"
    case THighArg => "$high_args"
    case TLBracket => "["
    case TRBracket => "]"
    case TLParen => "("
    case TRParen => ")"
    case TAssign(op) => AluSpelling(op)
    case TCompare(c) => CompareSpelling(c)
    case TEqual => "="
    case TMinus => "-"
    case TBang => "!"
    case TAction(a) => ActionSpelling(a)
    case TIdentifier(s) => s
    case TLabelDecl(s) => s + ":"
    case _ => ""
  }

  function Text(p: Piece): string {
    match p
    case Tok(t) => Spelling(t)
    case Hex(k, width) => "0x" + Padded(ToDigits(k, 16), width)
    case Dec(k) => ToDigits(k, 10)
    case Space => " "
    case Note(text) => "#" + text
  }

  function Printed(ps: seq<Piece>): string {
    if ps == [] then "" else Text(ps[0]) + Printed(ps[1..])
  }

  /** The token that a piece is meant as; a space is none. */
  function TokenOf(p: Piece): Token
    requires !p.Space?
  {
    match p
    case Tok(t) => t
    case Hex(k, _) => TNumber(k)
    case Dec(k) => TNumber(k)
    case Note(_) => TComment
  }

  function TokensOf(ps: seq<Piece>): seq<Token> {
    if ps == [] then []
    else if ps[0].Space? then TokensOf(ps[1..])
    else [TokenOf(ps[0])] + TokensOf(ps[1..])
  }

  /** Characters that end any word, number or operator before them. */
  predicate IsDelimiter(c: char) {
    c == ' ' || c == '(' || c == ')' || c == '[' || c == ']' || c == ',' || c == '$' || c == '\n'
  }

  predicate IsBracket(t: Token) {
    t.TLBracket? || t.TRBracket? || t.TLParen? || t.TRParen?
  }

  /** A label that scans as one identifier. */
  predicate IsLabel(s: string) {
    s != "" && s[0] == 'L' && |s| > 1 && IsDigit(s[1]) && forall i :: 0 <= i < |s| ==> IsIdentifier(s[i])
  }

  /** Tokens that a printed program contains. */
  predicate Printable(t: Token) {
    match t
    case TIdentifier(s) => IsLabel(s)
    case TLabelDecl(s) => IsLabel(s)
    case TDot => false
    case TArch(_) => false
    case TNumber(_) => false
    case TOverflow => false
    case TUnknown => false
    case TComment => false
    case TEol => false
    case TEof => false
    case _ => true
  }

  /** The piece is read back as it was meant when `rest` follows it. */
  predicate Separated(p: Piece, rest: string) {
    match p
    case Tok(t) => Printable(t) && (IsBracket(t) || t.TLabelDecl? || (rest != "" && IsDelimiter(rest[0])))
    case Hex(_, _) => rest != "" && IsDelimiter(rest[0])
    case Dec(_) => rest != "" && IsDelimiter(rest[0])
    case Space => true
    case Note(text) => '\n' !in text && rest != "" && rest[0] == '\n'
  }

  predicate AllSeparated(ps: seq<Piece>, end: string) {
    ps != [] ==> Separated(ps[0], Printed(ps[1..]) + end) && AllSeparated(ps[1..], end)
  }

  function ObjPieces(o: Obj): seq<Piece> {
    match o
    case VarA => [Tok(TA)]
    case VarX => [Tok(TX)]
    case MemWord(k) => [Tok(TMem), Tok(TLBracket), Hex(k, 0), Tok(TRBracket)]
    case Number(k) => [Hex(k, 0)]
    case DataLen => [Tok(TLen)]
    case SyscallNr => [Tok(TSyscall)]
    case ArchNr => [Tok(TArchAttr)]
    case LowPc => [Tok(TLowPc)]
    case HighPc => [Tok(THighPc)]
    case LowArg(k) => [Tok(TLowArg), Tok(TLBracket), Dec(k), Tok(TRBracket)]
    case HighArg(k) => [Tok(THighArg), Tok(TLBracket), Dec(k), Tok(TRBracket)]
  }

  function OpPieces(op: AssignOp): seq<Piece> {
    match op
    case OpTo(o) => [Tok(TAssign(o)), Space]
    case Equal => [Tok(TEqual), Space]
    case Negative => [Tok(TEqual), Space, Tok(TMinus)]
  }

  /** What the decoder notes beside a load of the length of the data. */
  function NotePieces(right: Obj): seq<Piece> {
    if right.DataLen? then [Space, Note(" 0x40")] else []
  }

  /** The label of an arm: its own name, or the default one of the statement it leads to. */
  function ArmLabel(l: Label, codeNr: nat): string {
    if l.key == "" then DefaultLabel(codeNr + l.codeNr + 1) else l.key
  }

  function GotoPieces(l: Label, codeNr: nat): seq<Piece> {
    [Tok(TGoto), Space, Tok(TIdentifier(ArmLabel(l, codeNr)))]
  }

  function OperandPiece(obj: Operand): Piece {
    if obj.RegX? then Tok(TX) else Hex(obj.k, 0)
  }

  function ConditionPieces(cmp: Comparator, obj: Operand): seq<Piece> {
    [Tok(TLParen), Tok(TA), Space, Tok(TCompare(cmp)), Space, OperandPiece(obj), Tok(TRParen), Space]
  }

  function ElsePieces(jf: Label, codeNr: nat): seq<Piece> {
    if jf.codeNr == 0 then [] else [Tok(TComma), Space, Tok(TElse), Space] + GotoPieces(jf, codeNr)
  }

  function ReturnPieces(r: RetObj): seq<Piece> {
    match r
    case RetA => [Tok(TA)]
    case RetNumber(k) => [Hex(k, 0)]
    case RetAction(a, data) =>
      [Tok(TAction(a))] + (if a.HasData() then [Tok(TLParen), Dec(data), Tok(TRParen)] else [])
  }

  /** print_statement, with the arms of jumps named after where they lead. */
  function BodyPieces(b: Body, codeNr: nat): seq<Piece> {
    match b
    case Assign(left, op, right) => ObjPieces(left) + [Space] + OpPieces(op) + ObjPieces(right) + NotePieces(right)
    case Jump(bang, conditional, cmp, obj, jt, jf) =>
      if !conditional then GotoPieces(jt, codeNr)
      else [Tok(TIf), Space] + (if bang then [Tok(TBang)] else []) + ConditionPieces(cmp, obj)
           + GotoPieces(jt, codeNr) + ElsePieces(jf, codeNr)
    case Return(r, _) => [Tok(TReturn), Space] + ReturnPieces(r)
    case _ => []
  }

  /** The code of an instruction as a number. */
  function CodeNumber(code: bv16): u32 {
    code as nat % U32
  }

  /** A line of a printed program: its label, the instruction word and the statement. */
  function LinePieces(n: nat, f: Filter, b: Body): seq<Piece> {
    [Space, Tok(TLabelDecl(DefaultLabel(n))), Space,
     Hex(CodeNumber(f.code), 2), Space, Hex(f.jt, 2), Space, Hex(f.jf, 2), Space, Hex(f.k, 8), Space] + BodyPieces(b, n)
  }

  lemma {:induction false} PrintedAppend(ps: seq<Piece>, qs: seq<Piece>)
    ensures Printed(ps + qs) == Printed(ps) + Printed(qs)
  {
    if ps == [] {
      assert ps + qs == qs;
    } else {
      assert (ps + qs)[1..] == ps[1..] + qs;
      PrintedAppend(ps[1..], qs);
    }
  }

  /** The printer and the text it has written so far. */
  class Printer {
    var text: string

    constructor ()
      ensures text == ""
    {
      text := "";
    }

    method Put(ps: seq<Piece>)
      modifies this
      ensures text == old(text) + Printed(ps)
    {
      for i := 0 to |ps|
        invariant text + Printed(ps[i..]) == old(text) + Printed(ps)
      {
        assert ps[i..][0] == ps[i] && ps[i..][1..] == ps[i + 1..];
        text := text + Text(ps[i]);
      }
      assert ps[|ps|..] == [];
    }

    method PrintObj(o: Obj)
      modifies this
      ensures text == old(text) + Printed(ObjPieces(o))
    {
      Put(ObjPieces(o));
    }

    method PrintAssign(left: Obj, op: AssignOp, right: Obj)
      modifies this
      ensures text == old(text) + Printed(ObjPieces(left) + [Space] + OpPieces(op) + ObjPieces(right))
    {
      hide Printed, ObjPieces, OpPieces;
      PrintObj(left);
      Put([Space]);
      Put(OpPieces(op));
      PrintObj(right);
      PrintedAppend(ObjPieces(left), [Space]);
      PrintedAppend(ObjPieces(left) + [Space], OpPieces(op));
      PrintedAppend(ObjPieces(left) + [Space] + OpPieces(op), ObjPieces(right));
    }

    method PrintGoto(l: Label, codeNr: nat)
      modifies this
      ensures text == old(text) + Printed(GotoPieces(l, codeNr))
    {
      Put(GotoPieces(l, codeNr));
    }

    method PrintJump(b: Body, codeNr: nat)
      requires b.Jump?
      modifies this
      ensures text == old(text) + Printed(BodyPieces(b, codeNr))
    {
      hide Printed, GotoPieces, ConditionPieces;
      if !b.conditional {
        PrintGoto(b.jt, codeNr);
        return;
      }
      var opening: seq<Piece> := [Tok(TIf), Space];
      if b.bang {
        opening := opening + [Tok(TBang)];
      }
      opening := opening + ConditionPieces(b.cmp, b.cmpobj);
      Put(opening);
      PrintGoto(b.jt, codeNr);
      PrintedAppend(opening, GotoPieces(b.jt, codeNr));
      var shown := opening + GotoPieces(b.jt, codeNr);
      if b.jf.codeNr == 0 {
        assert BodyPieces(b, codeNr) == shown;
        return;
      }
      var link: seq<Piece> := [Tok(TComma), Space, Tok(TElse), Space];
      Put(link);
      PrintGoto(b.jf, codeNr);
      PrintedAppend(link, GotoPieces(b.jf, codeNr));
      PrintedAppend(shown, link + GotoPieces(b.jf, codeNr));
      assert BodyPieces(b, codeNr) == shown + (link + GotoPieces(b.jf, codeNr));
    }

    method PrintReturn(r: RetObj)
      modifies this
      ensures text == old(text) + Printed([Tok(TReturn), Space] + ReturnPieces(r))
    {
      hide Printed, ReturnPieces;
      Put([Tok(TReturn), Space]);
      Put(ReturnPieces(r));
      PrintedAppend([Tok(TReturn), Space], ReturnPieces(r));
    }

    method PrintNoted(left: Obj, op: AssignOp, right: Obj)
      modifies this
      ensures text == old(text) + Printed(ObjPieces(left) + [Space] + OpPieces(op) + ObjPieces(right) + NotePieces(right))
    {
      hide ObjPieces, OpPieces, NotePieces, Printed;
      PrintAssign(left, op, right);
      Put(NotePieces(right));
      PrintedAppend(ObjPieces(left) + [Space] + OpPieces(op) + ObjPieces(right), NotePieces(right));
    }

    /** print_statement: the statement, what the decoder noted beside it, and the end of the line. */
    method PrintStatement(b: Body, codeNr: nat)
      modifies this
      ensures text == old(text) + Printed(BodyPieces(b, codeNr)) + "\n"
    {
      hide ObjPieces, OpPieces, GotoPieces, ElsePieces, ConditionPieces, ReturnPieces, NotePieces, Printed;
      match b {
        case Assign(left, op, right) => PrintNoted(left, op, right);
        case Jump(_, _, _, _, _, _) => PrintJump(b, codeNr);
        case Return(r, _) => PrintReturn(r);
        case _ => Put([]);
      }
      text := text + "\n";
    }

    /** A line of a printed program. */
    method PrintLine(n: nat, f: Filter, b: Body)
      modifies this
      ensures text == old(text) + Printed(LinePieces(n, f, b)) + "\n"
    {
      hide Printed, BodyPieces, CodeNumber, DefaultLabel;
      var word: seq<Piece> := [Space, Tok(TLabelDecl(DefaultLabel(n))), Space,
        Hex(CodeNumber(f.code), 2), Space, Hex(f.jt, 2), Space, Hex(f.jf, 2), Space, Hex(f.k, 8), Space];
      Put(word);
      PrintStatement(b, n);
      PrintedAppend(word, BodyPieces(b, n));
    }
  }
}
