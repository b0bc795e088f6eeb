/** What the printer writes, the scanner reads back as the same tokens. */
module Lexing {
  import opened Word
  import opened Bpf
  import opened Statements
  import opened Scanner
  import opened Formatter

  predicate AllDigits(s: string, base: nat) {
    forall i :: 0 <= i < |s| ==> DigitValue(s[i]) < base
  }

  lemma {:induction false} DigitsEnd(s: string, rest: string, base: nat)
    requires AllDigits(s, base) && (rest == "" || DigitValue(rest[0]) >= base)
    ensures DigitsLen(s + rest, base) == |s|
  {
    if s != "" {
      assert (s + rest)[1..] == s[1..] + rest;
      DigitsEnd(s[1..], rest, base);
    } else {
      assert s + rest == rest;
    }
  }

  lemma {:induction false} DigitsBack(k: nat, base: nat)
    requires base == 10 || base == 16
    ensures AllDigits(ToDigits(k, base), base) && DigitsValue(ToDigits(k, base), base) == k
  {
    LastDigit(k, base);
    var s := ToDigits(k, base);
    assert DigitValue(DigitChar(k % base)) == k % base;
    if k >= base {
      DigitsBack(k / base, base);
      assert s[..|s| - 1] == ToDigits(k / base, base);
      QuotientBack(k, base);
    } else {
      SmallModulo(k, base);
      assert s[..|s| - 1] == "";
    }
  }

  lemma QuotientBack(k: nat, base: nat)
    requires base > 0
    ensures k / base * base + k % base == k
  {
  }

  lemma SmallModulo(k: nat, base: nat)
    requires k < base
    ensures k % base == k
  {
  }

  lemma {:induction false} ZerosLast(n: nat)
    requires n > 0
    ensures Zeros(n) == Zeros(n - 1) + "0"
  {
    if n > 1 {
      ZerosLast(n - 1);
    }
  }

  lemma {:induction false} ZerosAre(n: nat, base: nat)
    requires base >= 2
    ensures |Zeros(n)| == n && AllDigits(Zeros(n), base) && DigitsValue(Zeros(n), base) == 0
  {
    if n > 0 {
      ZerosLast(n);
      ZerosAre(n - 1, base);
      assert Zeros(n)[..n - 1] == Zeros(n - 1);
    }
  }

  lemma {:induction false} ZerosValue(n: nat, s: string, base: nat)
    requires base >= 2
    ensures DigitsValue(Zeros(n) + s, base) == DigitsValue(s, base)
    decreases |s|
  {
    hide Zeros;
    var t := Zeros(n) + s;
    if s == "" {
      ZerosAre(n, base);
      assert t == Zeros(n);
    } else {
      ZerosValue(n, s[..|s| - 1], base);
      assert t[..|t| - 1] == Zeros(n) + s[..|s| - 1];
    }
  }

  lemma {:induction false} PaddedBack(k: nat, width: nat, base: nat)
    requires base == 10 || base == 16
    ensures var s := Padded(ToDigits(k, base), width); s != "" && AllDigits(s, base) && DigitsValue(s, base) == k
  {
    hide ToDigits, DigitsValue, DigitValue, Zeros;
    var s := ToDigits(k, base);
    DigitsBack(k, base);
    if |s| < width {
      ZerosAre(width - |s|, base);
      ZerosValue(width - |s|, s, base);
    }
  }

  lemma DelimiterEnds(c: char)
    requires IsDelimiter(c)
    ensures DigitValue(c) == 99 && !IsIdentifier(c) && c != 'x' && c != 'X'
  {
  }

  /** The characters of a number with a prefix. */
  lemma PrefixedDigits(d: string, rest: string)
    requires d != ""
    ensures var s := "0x" + d + rest;
            s[0] == '0' && s[1] == 'x' && s[2] == d[0] && s[2..] == d + rest && s[2..2 + |d|] == d
  {
  }

  /** Digits of any number, up to a delimiter. */
  lemma {:induction false} PrefixedScans(d: string, rest: string)
    requires d != "" && AllDigits(d, 16) && rest != "" && IsDelimiter(rest[0])
    ensures Strtoul("0x" + d + rest) == (DigitsValue(d, 16), 2 + |d|)
  {
    hide DigitsLen, DigitsValue;
    PrefixedDigits(d, rest);
    DelimiterEnds(rest[0]);
    DigitsEnd(d, rest, 16);
  }

  lemma HexScans(k: u32, width: nat, rest: string)
    requires rest != "" && IsDelimiter(rest[0])
    ensures TokenAt(Text(Hex(k, width)) + rest) == (TNumber(k), |Text(Hex(k, width))|)
  {
    hide Padded, ToDigits, MatchTokenRange, Punctuation, Strtoul, DigitsValue, AllDigits;
    var d := Padded(ToDigits(k, 16), width);
    PaddedBack(k, width, 16);
    PrefixedDigits(d, rest);
    PrefixedScans(d, rest);
    assert Text(Hex(k, width)) + rest == "0x" + d + rest;
  }

  lemma {:induction false} LeadingDigit(k: nat)
    requires k > 0
    ensures ToDigits(k, 10)[0] != '0'
  {
    if k >= 10 {
      LeadingDigit(k / 10);
    }
  }

  lemma DecScans(k: u32, rest: string)
    requires rest != "" && IsDelimiter(rest[0])
    ensures TokenAt(Text(Dec(k)) + rest) == (TNumber(k), |Text(Dec(k))|)
  {
    hide DigitsLen, DigitsValue, ToDigits, MatchTokenRange, Punctuation;
    var d := ToDigits(k, 10);
    DigitsBack(k, 10);
    DelimiterEnds(rest[0]);
    var s := d + rest;
    assert s[..|d|] == d && s[0] == d[0];
    assert IsDigit(d[0]);
    if k > 0 {
      LeadingDigit(k);
      DigitsEnd(d, rest, 10);
    } else {
      ZeroDigits();
      assert s[1] == rest[0];
      DigitsEnd(d, rest, 8);
    }
    assert Strtoul(s) == (k as nat, |d|);
  }

  lemma ZeroDigits()
    ensures ToDigits(0, 10) == "0" && DigitsValue("0", 8) == 0 && AllDigits("0", 8)
  {
    assert "0"[..0] == "";
  }

  /** A word at the start of a string is found in a list when no word before it matches. */
  lemma {:induction false} WordFound(s: string, words: seq<(string, Token)>, i: nat)
    requires i < |words| && MatchToken(s, words[i].0)
    requires forall j :: 0 <= j < i ==> !MatchToken(s, words[j].0)
    ensures MatchTokenRange(s, words) == Some((words[i].1, |words[i].0|))
  {
    if i > 0 {
      WordFound(s, words[1..], i - 1);
    }
  }

  /** A word followed by a delimiter matches itself, and no word that differs from it somewhere. */
  lemma WordMatches(w: string, rest: string)
    requires w != "" && rest != "" && IsDelimiter(rest[0])
    ensures MatchToken(w + rest, w)
  {
    DelimiterEnds(rest[0]);
    assert (w + rest)[..|w|] == w;
  }

  lemma WordDiffers(s: string, w: string, k: nat)
    requires k < |w| && k < |s| && s[k] != w[k]
    ensures !MatchToken(s, w)
  {
    if |w| <= |s| {
      assert s[..|w|][k] == s[k];
    }
  }

  lemma KeywordScans(i: nat, rest: string)
    requires i < |Keywords()| && rest != "" && IsDelimiter(rest[0])
    ensures TokenAt(Keywords()[i].0 + rest) == (Keywords()[i].1, |Keywords()[i].0|)
  {
    hide MatchTokenRange, Punctuation, MatchToken, Architectures;
    var w := Keywords()[i].0;
    var s := w + rest;
    WordMatches(w, rest);
    assert s[0] == w[0];
    forall j | 0 <= j < i
      ensures !MatchToken(s, Keywords()[j].0)
    {
      WordDiffers(s, Keywords()[j].0, 0);
    }
    WordFound(s, Keywords() + Architectures(), i);
  }

  lemma AttributesDiffer(i: nat, j: nat, rest: string)
    requires j < i < |Attributes()|
    ensures !MatchToken(Attributes()[i].0 + rest, Attributes()[j].0)
  {
    hide MatchToken;
    var w := Attributes()[i].0;
    var s := w + rest;
    var k := if (j, i) == (1, 2) then 2 else if (j, i) == (4, 6) then 5 else if (j, i) == (5, 7) then 6 else 1;
    assert s[k] == w[k];
    WordDiffers(s, Attributes()[j].0, k);
  }

  lemma AttributeScans(i: nat, rest: string)
    requires i < |Attributes()| && rest != "" && IsDelimiter(rest[0])
    ensures TokenAt(Attributes()[i].0 + rest) == (Attributes()[i].1, |Attributes()[i].0|)
  {
    hide MatchTokenRange, MatchToken;
    var w := Attributes()[i].0;
    var s := w + rest;
    WordMatches(w, rest);
    assert s[0] == w[0] && s[1] == w[1];
    forall j | 0 <= j < i
      ensures !MatchToken(s, Attributes()[j].0)
    {
      AttributesDiffer(i, j, rest);
    }
    WordFound(s, Attributes(), i);
  }

  lemma ActionScans(i: nat, rest: string)
    requires i < |Actions()| && rest != "" && IsDelimiter(rest[0])
    ensures TokenAt(Actions()[i].0 + rest) == (Actions()[i].1, |Actions()[i].0|)
  {
    hide MatchTokenRange, MatchToken, Punctuation;
    var w := Actions()[i].0;
    var s := w + rest;
    WordMatches(w, rest);
    assert s[0] == w[0];
    forall j | 0 <= j < i
      ensures !MatchToken(s, Actions()[j].0)
    {
      var k := if (j, i) == (0, 1) then 4 else if (j, i) == (5, 6) then 3 else 0;
      assert s[k] == if k < |w| then w[k] else rest[0];
      WordDiffers(s, Actions()[j].0, k);
    }
    WordFound(s, Actions(), i);
  }

  lemma AssignScans(op: AluOp, rest: string)
    requires rest != "" && IsDelimiter(rest[0])
    ensures TokenAt(AluSpelling(op) + rest) == (TAssign(op), |AluSpelling(op)|)
  {
    hide MatchTokenRange, Keywords, Actions, Attributes, Architectures;
    var w := AluSpelling(op);
    var s := w + rest;
    assert s[0] == w[0] && s[1] == w[1];
    assert |w| > 2 ==> s[2] == w[2];
  }

  lemma CompareScans(c: Comparator, rest: string)
    requires rest != "" && IsDelimiter(rest[0])
    ensures TokenAt(CompareSpelling(c) + rest) == (TCompare(c), |CompareSpelling(c)|)
  {
    hide MatchTokenRange, Keywords, Actions, Attributes, Architectures;
    var w := CompareSpelling(c);
    var s := w + rest;
    assert s[0] == w[0];
    assert s[1] == if |w| > 1 then w[1] else rest[0];
  }

  /** The other operators and punctuation. */
  lemma BracketScans(t: Token, s: string)
    requires IsBracket(t) && s != "" && [s[0]] == Spelling(t)
    ensures TokenAt(s) == (t, 1)
  {
    hide MatchTokenRange, Keywords, Actions, Attributes, Architectures;
  }

  lemma RegisterScans(t: Token, rest: string)
    requires Printable(t) && (t.TA? || t.TX?) && rest != "" && IsDelimiter(rest[0])
    ensures TokenAt(Spelling(t) + rest) == (t, |Spelling(t)|)
  {
    hide MatchTokenRange, Keywords, Actions, Attributes, Architectures;
    var w := Spelling(t);
    var s := w + rest;
    assert s[0] == w[0] && s[1] == w[1];
  }

  lemma SignScans(t: Token, rest: string)
    requires Printable(t) && (t.TEqual? || t.TMinus? || t.TBang? || t.TComma?) && rest != "" && IsDelimiter(rest[0])
    ensures TokenAt(Spelling(t) + rest) == (t, |Spelling(t)|)
  {
    hide MatchTokenRange, Keywords, Actions, Attributes, Architectures;
    var w := Spelling(t);
    var s := w + rest;
    assert s[0] == w[0] && s[1] == rest[0];
  }

  lemma OperatorScans(t: Token, rest: string)
    requires Printable(t) && (t.TA? || t.TX? || t.TEqual? || t.TMinus? || t.TBang? || t.TComma? || IsBracket(t))
    requires IsBracket(t) || (rest != "" && IsDelimiter(rest[0]))
    ensures TokenAt(Spelling(t) + rest) == (t, |Spelling(t)|)
  {
    hide TokenAt;
    if IsBracket(t) {
      var s := Spelling(t) + rest;
      assert [s[0]] == Spelling(t);
      BracketScans(t, s);
    } else if t.TA? || t.TX? {
      RegisterScans(t, rest);
    } else {
      SignScans(t, rest);
    }
  }

  lemma {:induction false} IdentifierEnds(s: string, rest: string)
    requires (forall i :: 0 <= i < |s| ==> IsIdentifier(s[i])) && (rest == "" || !IsIdentifier(rest[0]))
    ensures IdentifierLen(s + rest) == |s|
  {
    if s != "" {
      assert (s + rest)[1..] == s[1..] + rest;
      IdentifierEnds(s[1..], rest);
    } else {
      assert s + rest == rest;
    }
  }

  /** A label is no action's name: the second character is a digit. */
  lemma {:induction false} LabelIsNoAction(s: string)
    requires |s| > 1 && s[0] == 'L' && IsDigit(s[1])
    ensures MatchTokenRange(s, Actions()).None?
  {
    hide MatchTokenRange, MatchToken;
    forall j | 0 <= j < |Actions()|
      ensures !MatchToken(s, Actions()[j].0)
    {
      WordDiffers(s, Actions()[j].0, if j == 4 then 1 else 0);
    }
    NoWordFound(s, Actions());
  }

  lemma {:induction false} NoWordFound(s: string, words: seq<(string, Token)>)
    requires forall j :: 0 <= j < |words| ==> !MatchToken(s, words[j].0)
    ensures MatchTokenRange(s, words).None?
  {
    if words != [] {
      NoWordFound(s, words[1..]);
    }
  }

  lemma LabelScans(l: string, rest: string)
    requires IsLabel(l) && rest != "" && IsDelimiter(rest[0])
    ensures TokenAt(l + rest) == (TIdentifier(l), |l|)
  {
    hide MatchTokenRange, Punctuation, Actions, IdentifierLen;
    var s := l + rest;
    assert s[0] == l[0] && s[1] == l[1];
    LabelIsNoAction(s);
    DelimiterEnds(rest[0]);
    IdentifierEnds(l, rest);
    assert s[..|l|] == l && s[|l|] == rest[0];
  }

  lemma LabelDeclScans(l: string, rest: string)
    requires IsLabel(l)
    ensures TokenAt(l + ":" + rest) == (TLabelDecl(l), |l| + 1)
  {
    hide MatchTokenRange, Punctuation, Actions, IdentifierLen;
    var s := l + ":" + rest;
    assert s == l + (":" + rest);
    assert s[0] == l[0] && s[1] == l[1];
    LabelIsNoAction(s);
    IdentifierEnds(l, ":" + rest);
    assert s[..|l|] == l && s[|l|] == ':';
  }

  lemma ActionSpellingScans(a: Action, rest: string)
    requires rest != "" && IsDelimiter(rest[0])
    ensures TokenAt(ActionSpelling(a) + rest) == (TAction(a), |ActionSpelling(a)|)
  {
    hide TokenAt;
    match a
    case KillProc => ActionScans(0, rest);
    case Kill => ActionScans(1, rest);
    case Allow => ActionScans(2, rest);
    case Notify => ActionScans(3, rest);
    case Log => ActionScans(4, rest);
    case Trace => ActionScans(5, rest);
    case Trap => ActionScans(6, rest);
    case Errno => ActionScans(7, rest);
  }

  lemma AttributeSpellingScans(t: Token, rest: string)
    requires Printable(t)
    requires t.TMem? || t.TLen? || t.TSyscall? || t.TArchAttr? || t.TLowPc? || t.THighPc? || t.TLowArg? || t.THighArg?
    requires rest != "" && IsDelimiter(rest[0])
    ensures TokenAt(Spelling(t) + rest) == (t, |Spelling(t)|)
  {
    hide TokenAt;
    match t
    case TMem => AttributeScans(0, rest);
    case TLen => AttributeScans(1, rest);
    case TSyscall => AttributeScans(2, rest);
    case TArchAttr => AttributeScans(3, rest);
    case TLowPc => AttributeScans(4, rest);
    case THighPc => AttributeScans(5, rest);
    case TLowArg => AttributeScans(6, rest);
    case THighArg => AttributeScans(7, rest);
  }

  /** Every word, operator and label is scanned as itself. */
  lemma SpellingScans(t: Token, rest: string)
    requires Printable(t)
    requires IsBracket(t) || t.TLabelDecl? || (rest != "" && IsDelimiter(rest[0]))
    ensures TokenAt(Spelling(t) + rest) == (t, |Spelling(t)|)
  {
    hide TokenAt, AluSpelling, ActionSpelling, CompareSpelling;
    match t
    case TReturn => KeywordScans(0, rest);
    case TIf => KeywordScans(1, rest);
    case TGoto => KeywordScans(2, rest);
    case TElse => KeywordScans(3, rest);
    case TAction(a) => ActionSpellingScans(a, rest);
    case TIdentifier(l) => LabelScans(l, rest);
    case TLabelDecl(l) => LabelDeclScans(l, rest); assert l + ":" + rest == Spelling(t) + rest;
    case TAssign(op) => AssignScans(op, rest);
    case TCompare(c) => CompareScans(c, rest);
    case TMem => AttributeSpellingScans(t, rest);
    case TLen => AttributeSpellingScans(t, rest);
    case TSyscall => AttributeSpellingScans(t, rest);
    case TArchAttr => AttributeSpellingScans(t, rest);
    case TLowPc => AttributeSpellingScans(t, rest);
    case THighPc => AttributeSpellingScans(t, rest);
    case TLowArg => AttributeSpellingScans(t, rest);
    case THighArg => AttributeSpellingScans(t, rest);
    case _ => OperatorScans(t, rest);
  }

  lemma {:induction false} CommentScans(text: string, rest: string)
    requires '\n' !in text && rest != "" && rest[0] == '\n'
    ensures CommentLen(text + rest) == |text|
  {
    if text != "" {
      assert (text + rest)[1..] == text[1..] + rest;
      CommentScans(text[1..], rest);
    } else {
      assert text + rest == rest;
    }
  }

  /** A piece that is a token starts with a character that is not blank. */
  lemma NotBlank(t: Token)
    requires Printable(t)
    ensures Spelling(t) != "" && !IsBlank(Spelling(t)[0])
  {
  }

  /** A piece is scanned as the token it was meant as, if it was meant as one. */
  lemma PieceScans(p: Piece, rest: string)
    requires Separated(p, rest) && !p.Space?
    ensures Text(p) != "" && !IsBlank(Text(p)[0]) && TokenOf(p) != TEol
    ensures TokenAt(Text(p) + rest) == (TokenOf(p), |Text(p)|)
  {
    hide TokenAt, Spelling, Padded, ToDigits;
    match p
    case Tok(t) => SpellingScans(t, rest); NotBlank(t);
    case Hex(k, w) => HexScans(k, w, rest);
    case Dec(k) => DecScans(k, rest); DigitsNotBlank(k);
    case Note(text) => NoteScans(text, rest);
  }

  lemma {:induction false} DigitsNotBlank(k: nat)
    ensures !IsBlank(ToDigits(k, 10)[0])
  {
    hide ToDigits;
    DigitsBack(k, 10);
  }

  lemma NoteScans(text: string, rest: string)
    requires '\n' !in text && rest != "" && rest[0] == '\n'
    ensures TokenAt("#" + text + rest) == (TComment, |"#" + text|)
  {
    hide MatchTokenRange, Punctuation;
    assert "#" + text + rest == "#" + (text + rest);
    CommentScans("#" + text, rest);
  }

  /** Scanning printed pieces gives back their tokens, then the end of the line. */
  lemma {:induction false} PiecesScan(ps: seq<Piece>)
    requires AllSeparated(ps, "\n")
    ensures ScanLine(Printed(ps) + "\n") == TokensOf(ps) + [TEol]
  {
    hide TokenAt, Separated, Text, ScanLine, TokenOf;
    if ps == [] {
      assert Printed(ps) + "\n" == "\n";
      EndScans();
    } else {
      var rest := Printed(ps[1..]) + "\n";
      var s := Printed(ps) + "\n";
      assert s == Text(ps[0]) + rest;
      PiecesScan(ps[1..]);
      if ps[0].Space? {
        SpaceSkipped(rest);
      } else {
        PieceScans(ps[0], rest);
        TokenScanned(s, Text(ps[0]), rest, TokenOf(ps[0]));
      }
    }
  }

  lemma EndScans()
    ensures ScanLine("\n") == [TEol]
  {
    assert SkipBlanks("\n") == "\n";
  }

  lemma {:induction false} SpaceSkipped(rest: string)
    ensures ScanLine(Text(Space) + rest) == ScanLine(rest)
  {
    assert (" " + rest)[1..] == rest;
    assert SkipBlanks(" " + rest) == SkipBlanks(rest);
  }

  lemma {:induction false} TokenScanned(s: string, w: string, rest: string, t: Token)
    requires w != "" && !IsBlank(w[0]) && s == w + rest && TokenAt(s) == (t, |w|) && t != TEol
    ensures ScanLine(s) == [t] + ScanLine(rest)
  {
    hide TokenAt;
    assert SkipBlanks(s) == s;
    assert s[|w|..] == rest;
  }

  /** Printed text has no unknown characters. */
  lemma {:induction false} NothingUnknown(ps: seq<Piece>, end: string)
    requires AllSeparated(ps, end)
    ensures TUnknown !in TokensOf(ps)
  {
    if ps != [] {
      NothingUnknown(ps[1..], end);
    }
  }
}
