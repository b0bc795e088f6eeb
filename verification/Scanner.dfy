/** The scanner: tokens of a source line, read from its characters. */
module Scanner {
  import opened Word
  import opened Bpf
  import opened Statements

  datatype Token =
    | TReturn | TIf | TGoto | TElse | TComma | TDot
    | TA | TX | TMem | TLen | TSyscall | TArchAttr | TLowPc | THighPc | TLowArg | THighArg
    | TLBracket | TRBracket | TLParen | TRParen
    | TAssign(op: AluOp) | TCompare(cmp: Comparator) | TEqual | TMinus | TBang
    | TAction(action: Action) | TArch(name: string)
    | TNumber(k: u32) | TOverflow | TIdentifier(text: string) | TLabelDecl(text: string)
    | TUnknown | TComment | TEol | TEof

  predicate IsLower(c: char) {
    'a' <= c <= 'z'
  }

  predicate IsUpper(c: char) {
    'A' <= c <= 'Z'
  }

  predicate IsDigit(c: char) {
    '0' <= c <= '9'
  }

  predicate IsAlpha(c: char) {
    IsLower(c) || IsUpper(c)
  }

  predicate IsIdentifier(c: char) {
    IsAlpha(c) || IsDigit(c) || c == '_'
  }

  /** Spaces other than the end of the line. */
  predicate IsBlank(c: char) {
    c == ' ' || c == '\t' || c == '\r' || c == 11 as char || c == 12 as char
  }

  /** The rest of a line from its first character that is not blank. */
  function SkipBlanks(s: string): string {
    if s != "" && IsBlank(s[0]) then SkipBlanks(s[1..]) else s
  }

  predicate StartsWith(s: string, w: string) {
    |w| <= |s| && s[..|w|] == w
  }

  /** A fixed word, not followed by more of an identifier. */
  predicate MatchToken(s: string, w: string) {
    w != "" && StartsWith(s, w) && (|s| > |w| ==> !IsIdentifier(s[|w|]))
  }

  /** The first of some words that matches. */
  function MatchTokenRange(s: string, words: seq<(string, Token)>): (r: Option<(Token, nat)>)
    ensures r.Some? ==> 0 < r.value.1 <= |s|
  {
    if words == [] then None
    else if MatchToken(s, words[0].0) then Some((words[0].1, |words[0].0|))
    else MatchTokenRange(s, words[1..])
  }

  function Keywords(): seq<(string, Token)> {
    [("return", TReturn), ("if", TIf), ("goto", TGoto), ("else", TElse)]
  }

  function Actions(): seq<(string, Token)> {
    [("KILL_PROCESS", TAction(KillProc)), ("KILL", TAction(Kill)), ("ALLOW", TAction(Allow)), ("NOTIFY", TAction(Notify)),
     ("LOG", TAction(Log)), ("TRACE", TAction(Trace)), ("TRAP", TAction(Trap)), ("ERRNO", TAction(Errno))]
  }

  function Attributes(): seq<(string, Token)> {
    [("$mem", TMem), ("$scmp_data_len", TLen), ("$syscall_nr", TSyscall), ("$arch", TArchAttr), ("$low_pc", TLowPc),
     ("$high_pc", THighPc), ("$low_args", TLowArg), ("$high_args", THighArg)]
  }

  function Architectures(): seq<(string, Token)> {
    [("i386", TArch("i386")), ("i686", TArch("i686")), ("x86_64", TArch("x86_64")), ("x32", TArch("x32")),
     ("aarch64", TArch("aarch64")), ("armv8l", TArch("armv8l")), ("armv7l", TArch("armv7l")), ("arm", TArch("arm")),
     ("loongarch64", TArch("loongarch64")), ("m68k", TArch("m68k")),
     ("mipsel64n32", TArch("mipsel64n32")), ("mipsel64", TArch("mipsel64")), ("mipsel", TArch("mipsel")),
     ("mips64n32", TArch("mips64n32")), ("mips64", TArch("mips64")), ("mips", TArch("mips")),
     ("parisc64", TArch("parisc64")), ("parisc", TArch("parisc")),
     ("ppc64le", TArch("ppc64le")), ("ppc64", TArch("ppc64")), ("ppc", TArch("ppc")),
     ("s390x", TArch("s390x")), ("s390", TArch("s390")), ("riscv64", TArch("riscv64")),
     ("sh4", TArch("sh4")), ("sheb", TArch("sheb")), ("sh", TArch("sh"))]
  }

  /** Punctuation, by the longest operator that fits. */
  function Punctuation(s: string): (r: Option<(Token, nat)>)
    requires s != ""
    ensures r.Some? ==> 0 < r.value.1 <= |s|
  {
    var two := |s| > 1 && s[1] == '=';
    match s[0]
    case '$' =>
      if |s| > 1 && s[1] == 'A' then Some((TA, 2))
      else if |s| > 1 && s[1] == 'X' then Some((TX, 2))
      else MatchTokenRange(s, Attributes())
    case ',' => Some((TComma, 1))
    case '.' => Some((TDot, 1))
    case '[' => Some((TLBracket, 1))
    case ']' => Some((TRBracket, 1))
    case '(' => Some((TLParen, 1))
    case ')' => Some((TRParen, 1))
    case '+' => if two then Some((TAssign(Add), 2)) else None
    case '-' => if two then Some((TAssign(Sub), 2)) else Some((TMinus, 1))
    case '*' => if two then Some((TAssign(Mul), 2)) else None
    case '/' => if two then Some((TAssign(Div), 2)) else None
    case '<' =>
      if two then Some((TCompare(LessEqual), 2))
      else if |s| > 2 && s[1] == '<' && s[2] == '=' then Some((TAssign(Lsh), 3))
      else Some((TCompare(LessThan), 1))
    case '>' =>
      if two then Some((TCompare(GreaterEqual), 2))
      else if |s| > 2 && s[1] == '>' && s[2] == '=' then Some((TAssign(Rsh), 3))
      else Some((TCompare(GreaterThan), 1))
    case '&' => if two then Some((TAssign(And), 2)) else Some((TCompare(AndBits), 1))
    case '|' => if two then Some((TAssign(Or), 2)) else None
    case '^' => if two then Some((TAssign(Xor), 2)) else None
    case '!' => if two then Some((TCompare(BangEqual), 2)) else Some((TBang, 1))
    case '=' => if two then Some((TCompare(EqualEqual), 2)) else Some((TEqual, 1))
    case _ => None
  }

  /** The length of the identifier that a string begins with. */
  function IdentifierLen(s: string): (n: nat)
    ensures n <= |s|
  {
    if s != "" && IsIdentifier(s[0]) then 1 + IdentifierLen(s[1..]) else 0
  }

  function DigitValue(c: char): nat {
    if IsDigit(c) then c as nat - '0' as nat
    else if 'a' <= c <= 'f' then c as nat - 'a' as nat + 10
    else if 'A' <= c <= 'F' then c as nat - 'A' as nat + 10
    else 99
  }

  /** The length of the digits that a string begins with. */
  function DigitsLen(s: string, base: nat): (n: nat)
    ensures n <= |s|
  {
    if s != "" && DigitValue(s[0]) < base then 1 + DigitsLen(s[1..], base) else 0
  }

  function DigitsValue(s: string, base: nat): nat {
    if s == "" then 0 else DigitsValue(s[..|s| - 1], base) * base + DigitValue(s[|s| - 1])
  }

  /** strtoul with base 0: a value and how many characters it takes. */
  function Strtoul(s: string): (r: (nat, nat))
    requires s != "" && IsDigit(s[0])
    ensures 0 < r.1 <= |s|
  {
    if s[0] == '0' then
      if |s| > 2 && (s[1] == 'x' || s[1] == 'X') && DigitValue(s[2]) < 16 then
        var n := DigitsLen(s[2..], 16);
        (DigitsValue(s[2..2 + n], 16), 2 + n)
      else
        var n := DigitsLen(s, 8);
        (DigitsValue(s[..n], 8), n)
    else
      var n := DigitsLen(s, 10);
      (DigitsValue(s[..n], 10), n)
  }

  /** The keyword, name or operator that a string begins with. */
  function WordsAt(s: string): (r: Option<(Token, nat)>)
    requires s != ""
    ensures r.Some? ==> 0 < r.value.1 <= |s|
  {
    if IsLower(s[0]) then MatchTokenRange(s, Keywords() + Architectures())
    else if IsUpper(s[0]) then MatchTokenRange(s, Actions())
    else if IsDigit(s[0]) then None
    else Punctuation(s)
  }

  /** The next token and its length, where no blanks are before it. */
  function TokenAt(s: string): (r: (Token, nat))
    requires s != ""
    ensures 0 < r.1 <= |s|
  {
    var c := s[0];
    var words := WordsAt(s);
    if c == '#' then (TComment, CommentLen(s))
    else if c == '\n' then (TEol, 1)
    else if words.Some? then words.value
    else if IsAlpha(c) then
      var n := IdentifierLen(s);
      if n < |s| && s[n] == ':' then (TLabelDecl(s[..n]), n + 1) else (TIdentifier(s[..n]), n)
    else if IsDigit(c) then
      var (v, n) := Strtoul(s);
      if v < U32 then (TNumber(v), n) else (TOverflow, 1)
    else (TUnknown, 1)
  }

  /** A character that no token begins with. */
  predicate IsUnknown(s: string)
    requires s != ""
  {
    s[0] != '#' && s[0] != '\n' && !IsAlpha(s[0]) && !IsDigit(s[0]) && WordsAt(s).None?
  }

  /** A comment goes on up to the end of the line. */
  function CommentLen(s: string): (n: nat)
    ensures n <= |s|
  {
    if s != "" && s[0] != '\n' then 1 + CommentLen(s[1..]) else 0
  }

  /** The tokens of a line, up to the one that ends it. */
  function ScanLine(s: string): seq<Token>
    decreases |s|
  {
    var t := SkipBlanks(s);
    SkipShortens(s);
    if t == "" then []
    else
      var (tok, n) := TokenAt(t);
      if tok == TEol then [TEol] else [tok] + ScanLine(t[n..])
  }

  lemma {:induction false} SkipShortens(s: string)
    ensures |SkipBlanks(s)| <= |s|
  {
    if s != "" && IsBlank(s[0]) {
      SkipShortens(s[1..]);
    }
  }

  /** The scanner's position in a line, which moves past one token at a time. */
  class Scanner {
    const line: string
    var current: nat
    var unknownCount: nat

    constructor (line: string, unknownCount: nat)
      ensures this.line == line && current == 0 && this.unknownCount == unknownCount
    {
      this.line, current, this.unknownCount := line, 0, unknownCount;
    }

    method SkipSpaces()
      requires current <= |line|
      modifies this`current
      ensures current <= |line| && line[current..] == SkipBlanks(line[old(current)..])
    {
      while current < |line| && IsBlank(line[current])
        invariant current <= |line|
        invariant SkipBlanks(line[current..]) == SkipBlanks(line[old(current)..])
      {
        assert line[current..][1..] == line[current + 1..];
        current := current + 1;
      }
    }

    method MatchRange(words: seq<(string, Token)>) returns (t: Option<Token>)
      requires current <= |line|
      modifies this`current
      ensures current <= |line|
      ensures match MatchTokenRange(line[old(current)..], words)
              case None => t == None && current == old(current)
              case Some(found) => t == Some(found.0) && current == old(current) + found.1
    {
      ghost var s := line[current..];
      for i := 0 to |words|
        invariant current == old(current)
        invariant MatchTokenRange(s, words) == MatchTokenRange(s, words[i..])
      {
        assert words[i..][0] == words[i] && words[i..][1..] == words[i + 1..];
        if MatchToken(line[current..], words[i].0) {
          current := current + |words[i].0|;
          return Some(words[i].1);
        }
      }
      t := None;
    }

    method SkipComment()
      requires current <= |line|
      modifies this`current
      ensures current == old(current) + CommentLen(line[old(current)..])
    {
      while current < |line| && line[current] != '\n'
        invariant old(current) <= current <= |line|
        invariant current - old(current) + CommentLen(line[current..]) == CommentLen(line[old(current)..])
      {
        assert line[current..][1..] == line[current + 1..];
        current := current + 1;
      }
    }

    method SkipIdentifier()
      requires current <= |line|
      modifies this`current
      ensures current == old(current) + IdentifierLen(line[old(current)..])
    {
      while current < |line| && IsIdentifier(line[current])
        invariant old(current) <= current <= |line|
        invariant current - old(current) + IdentifierLen(line[current..]) == IdentifierLen(line[old(current)..])
      {
        assert line[current..][1..] == line[current + 1..];
        current := current + 1;
      }
    }

    /** The keyword, name or operator that begins here, if any. */
    method FixedWord(c: char) returns (t: Option<Token>)
      requires current < |line| && c == line[current]
      modifies this`current
      ensures current <= |line|
      ensures match WordsAt(line[old(current)..])
              case None => t == None && current == old(current)
              case Some(found) => t == Some(found.0) && current == old(current) + found.1
    {
      hide Keywords, Architectures, Actions, MatchTokenRange, Punctuation;
      t := None;
      if IsLower(c) {
        t := MatchRange(Keywords() + Architectures());
      } else if IsUpper(c) {
        t := MatchRange(Actions());
      } else if !IsDigit(c) {
        var found := Punctuation(line[current..]);
        if found.Some? {
          current := current + found.value.1;
          t := Some(found.value.0);
        }
      }
    }

    /** A name or the declaration of a label. */
    method Name() returns (t: Token)
      requires current < |line| && IsAlpha(line[current]) && WordsAt(line[current..]).None?
      modifies this`current
      ensures current <= |line| && (t, current - old(current)) == TokenAt(line[old(current)..])
    {
      hide WordsAt;
      var start := current;
      ghost var s := line[current..];
      SkipIdentifier();
      var name := line[start..current];
      assert name == s[..current - start];
      t := TIdentifier(name);
      if current < |line| && line[current] == ':' {
        current := current + 1;
        t := TLabelDecl(name);
      }
    }

    method Numeral() returns (t: Token)
      requires current < |line| && IsDigit(line[current])
      modifies this`current
      ensures current <= |line| && (t, current - old(current)) == TokenAt(line[old(current)..])
    {
      hide Strtoul;
      var (v, n) := Strtoul(line[current..]);
      if v >= U32 {
        current := current + 1;
        return TOverflow;
      }
      current := current + n;
      t := TNumber(v);
    }

    /** scan_token: after too many unknown characters the source is given up as at its end. */
    method ScanToken() returns (t: Token)
      requires current <= |line| && SkipBlanks(line[current..]) != ""
      modifies this
      ensures current <= |line|
      ensures var s := SkipBlanks(line[old(current)..]);
              if IsUnknown(s) && old(unknownCount) > 5 then t == TEof && line[current..] == s && unknownCount == old(unknownCount)
              else
                && t == TokenAt(s).0 && line[current..] == s[TokenAt(s).1..]
                && unknownCount == old(unknownCount) + (if IsUnknown(s) then 1 else 0)
    {
      hide WordsAt, SkipBlanks, Strtoul, IdentifierLen, CommentLen;
      SkipSpaces();
      ghost var s := line[current..];
      var c := line[current];
      if c == '#' {
        SkipComment();
        return TComment;
      }
      if c == '\n' {
        current := current + 1;
        return TEol;
      }
      var word := FixedWord(c);
      if word.Some? {
        return word.value;
      }
      if IsAlpha(c) {
        t := Name();
        return;
      }
      if IsDigit(c) {
        t := Numeral();
        return;
      }
      if unknownCount > 5 {
        return TEof;
      }
      unknownCount := unknownCount + 1;
      current := current + 1;
      t := TUnknown;
    }
  }

  /** The tokens of a line when so many unknown characters have been seen before it, and how many
      have been seen after it. The source is given up at the seventh. */
  function ScanFrom(s: string, unknown: nat): (r: (seq<Token>, nat))
    decreases |s|
  {
    var t := SkipBlanks(s);
    SkipShortens(s);
    if t == "" then ([], unknown)
    else if IsUnknown(t) && unknown > 5 then ([TEof], unknown)
    else
      var (tok, n) := TokenAt(t);
      if tok == TEol then ([TEol], unknown)
      else
        var rest := ScanFrom(t[n..], unknown + (if IsUnknown(t) then 1 else 0));
        ([tok] + rest.0, rest.1)
  }

  /** The tokens of a line. */
  method ScanTokens(line: string, unknown: nat) returns (tokens: seq<Token>, unknown': nat)
    requires line != "" && line[|line| - 1] == '\n'
    ensures (tokens, unknown') == ScanFrom(line, unknown)
  {
    hide TokenAt, IsUnknown, SkipBlanks, ScanFrom;
    var s := new Scanner(line, unknown);
    tokens := [];
    assert line[0..] == line;
    while s.current < |line|
      invariant s.line == line && s.current <= |line|
      invariant tokens + ScanFrom(line[s.current..], s.unknownCount).0 == ScanFrom(line, unknown).0
      invariant ScanFrom(line[s.current..], s.unknownCount).1 == ScanFrom(line, unknown).1
      decreases |line| - s.current
    {
      ghost var before := line[s.current..];
      assert before[|before| - 1] == '\n';
      EndsLine(before);
      SkipShortens(before);
      ScanFromStep(before, s.unknownCount);
      ghost var read := tokens;
      var t := s.ScanToken();
      tokens := tokens + [t];
      AddsToken(read, t, ScanFrom(line[s.current..], s.unknownCount).0);
      if t == TEol || t == TEof {
        return tokens, s.unknownCount;
      }
    }
    assert line[s.current..] == "";
    NothingScans();
    assert tokens + [] == tokens;
    unknown' := s.unknownCount;
  }

  lemma AddsToken(read: seq<Token>, t: Token, rest: seq<Token>)
    ensures read + ([t] + rest) == read + [t] + rest
  {
  }

  lemma ScanFromStep(s: string, unknown: nat)
    requires SkipBlanks(s) != ""
    ensures var t := SkipBlanks(s);
            TokenAt(t).0 != TEof && (IsUnknown(t) <==> TokenAt(t).0 == TUnknown)
    ensures var t := SkipBlanks(s);
            ScanFrom(s, unknown)
            == if IsUnknown(t) && unknown > 5 then ([TEof], unknown)
               else if TokenAt(t).0 == TEol then ([TEol], unknown)
               else
                 var rest := ScanFrom(t[TokenAt(t).1..], unknown + (if IsUnknown(t) then 1 else 0));
                 ([TokenAt(t).0] + rest.0, rest.1)
  {
    WordsAreKnown(SkipBlanks(s));
    hide Strtoul, WordsAt;
  }

  /** No word of the language is an unknown character or the end of the source. */
  lemma WordsAreKnown(s: string)
    requires s != ""
    ensures WordsAt(s).Some? ==> WordsAt(s).value.0 != TUnknown && WordsAt(s).value.0 != TEof
  {
    hide MatchTokenRange, Keywords, Architectures, Actions, Attributes;
    TablesAreKnown();
    RangeIsKnown(s, Keywords() + Architectures());
    RangeIsKnown(s, Actions());
    RangeIsKnown(s, Attributes());
  }

  predicate AllKnown(words: seq<(string, Token)>) {
    forall i :: 0 <= i < |words| ==> words[i].1 != TUnknown && words[i].1 != TEof
  }

  lemma TablesAreKnown()
    ensures AllKnown(Keywords() + Architectures()) && AllKnown(Actions()) && AllKnown(Attributes())
  {
    ArchitecturesAreKnown();
    hide Architectures;
  }

  lemma ArchitecturesAreKnown()
    ensures AllKnown(Architectures())
  {
  }

  lemma {:induction false} RangeIsKnown(s: string, words: seq<(string, Token)>)
    requires s != "" && AllKnown(words)
    ensures MatchTokenRange(s, words).Some? ==>
              MatchTokenRange(s, words).value.0 != TUnknown && MatchTokenRange(s, words).value.0 != TEof
  {
    if words != [] {
      RangeIsKnown(s, words[1..]);
    }
  }

  function Unknowns(tokens: seq<Token>): nat {
    if tokens == [] then 0 else (if tokens[0] == TUnknown then 1 else 0) + Unknowns(tokens[1..])
  }

  /** Up to six unknown characters are tokens like others; at the seventh, what was read of the
      line ends. */
  lemma {:induction false} ScanGivesUp(s: string, unknown: nat) returns (n: nat)
    requires unknown <= 6
    ensures var all := ScanLine(s);
            if unknown + Unknowns(all) <= 6 then ScanFrom(s, unknown) == (all, unknown + Unknowns(all))
            else n < |all| && all[n] == TUnknown && unknown + Unknowns(all[..n]) == 6 && ScanFrom(s, unknown) == (all[..n] + [TEof], 6)
    decreases |s|
  {
    hide TokenAt, IsUnknown, SkipBlanks, ScanLine, ScanFrom, Unknowns;
    UnknownsNone();
    n := 0;
    var t := SkipBlanks(s);
    if t == "" {
      BlanksScan(s, unknown);
    } else {
      ScanStep(s);
      ScanFromStep(s, unknown);
      SkipShortens(s);
      var tok := TokenAt(t).0;
      if tok == TEol {
        UnknownsCons(tok, []);
        assert [tok] + [] == [tok];
      } else {
        var rest := t[TokenAt(t).1..];
        UnknownsCons(tok, ScanLine(rest));
        assert ScanLine(s)[..0] == [] && [] + [TEof] == [TEof];
        if !(tok == TUnknown && unknown == 6) {
          n := ScanGivesUp(rest, unknown + (if tok == TUnknown then 1 else 0));
          if unknown + Unknowns(ScanLine(s)) > 6 {
            UnknownsCons(tok, ScanLine(rest)[..n]);
            PrefixCons(tok, ScanLine(rest), n);
            n := n + 1;
          }
        }
      }
    }
  }

  lemma UnknownsNone()
    ensures Unknowns([]) == 0
  {
  }

  lemma {:induction false} UnknownsCons(tok: Token, ts: seq<Token>)
    ensures Unknowns([tok] + ts) == (if tok == TUnknown then 1 else 0) + Unknowns(ts)
  {
    assert ([tok] + ts)[1..] == ts;
  }

  lemma PrefixCons(tok: Token, ts: seq<Token>, n: nat)
    requires n < |ts|
    ensures ([tok] + ts)[..n + 1] == [tok] + ts[..n] && ([tok] + ts)[n + 1] == ts[n]
    ensures [tok] + ts[..n] + [TEof] == [tok] + (ts[..n] + [TEof])
  {
  }

  /** A line without unknown characters is scanned whole, whatever came before. */
  lemma {:induction false} KnownScans(s: string, unknown: nat)
    requires TUnknown !in ScanLine(s) && unknown <= 6
    ensures ScanFrom(s, unknown) == (ScanLine(s), unknown)
  {
    hide ScanLine, ScanFrom;
    NoUnknowns(ScanLine(s));
    var _ := ScanGivesUp(s, unknown);
  }

  lemma {:induction false} NoUnknowns(tokens: seq<Token>)
    requires TUnknown !in tokens
    ensures Unknowns(tokens) == 0
  {
    if tokens != [] {
      NoUnknowns(tokens[1..]);
    }
  }

  lemma {:induction false} BlanksScan(s: string, unknown: nat)
    requires SkipBlanks(s) == ""
    ensures ScanLine(s) == [] && ScanFrom(s, unknown) == ([], unknown)
  {
  }

  lemma NothingScans()
    ensures forall unknown: nat :: ScanFrom("", unknown) == ([], unknown)
  {
    assert SkipBlanks("") == "";
  }

  /** A string that ends with a newline has more than blanks in it. */
  lemma {:induction false} EndsLine(s: string)
    requires s != "" && s[|s| - 1] == '\n'
    ensures SkipBlanks(s) != "" && SkipBlanks(s)[|SkipBlanks(s)| - 1] == '\n'
  {
    if IsBlank(s[0]) {
      EndsLine(s[1..]);
    }
  }

  lemma {:induction false} ScanStep(s: string)
    requires SkipBlanks(s) != ""
    ensures var t := SkipBlanks(s);
            && ScanLine(s) == (if TokenAt(t).0 == TEol then [TEol] else [TokenAt(t).0] + ScanLine(t[TokenAt(t).1..]))
            && (IsUnknown(t) ==> TokenAt(t).0 == TUnknown)
  {
    hide Strtoul, WordsAt;
  }
}
