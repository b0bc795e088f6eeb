/** The words and numbers of the language, as they are written, and the tokens they are. */
module Vocabulary {
  import opened Word
  import opened Bpf
  import opened Statements
  import opened Scanner
  import opened Formatter
  import opened Lexing

  predicate IsWord(w: string) {
    w != "" && forall i :: 0 <= i < |w| ==> IsIdentifier(w[i])
  }

  /** What follows a word and is no more of it. */
  predicate Ends(rest: string) {
    rest != "" && !IsIdentifier(rest[0])
  }

  /** A word is matched by itself and by no other word. */
  lemma MatchesItself(n: string, w: string, rest: string)
    requires IsWord(n) && IsWord(w) && Ends(rest)
    ensures MatchToken(n + rest, w) <==> w == n
  {
    var s := n + rest;
    assert s[..|n|] == n && s[|n|] == rest[0];
    if |w| < |n| {
      assert s[|w|] == n[|w|];
    } else if |n| < |w| <= |s| {
      assert s[..|w|][|n|] == rest[0];
    }
  }

  predicate AllWords(words: seq<(string, Token)>) {
    forall i :: 0 <= i < |words| ==> IsWord(words[i].0)
  }

  /** A word is found in a list exactly where it stands first. */
  lemma {:induction false} FoundInList(n: string, words: seq<(string, Token)>, rest: string)
    requires IsWord(n) && AllWords(words) && Ends(rest)
    ensures match MatchTokenRange(n + rest, words)
            case Some(found) => found.1 == |n| && (n, found.0) in words
            case None => forall i :: 0 <= i < |words| ==> words[i].0 != n
  {
    hide MatchToken, IsWord;
    if words != [] {
      MatchesItself(n, words[0].0, rest);
      FoundInList(n, words[1..], rest);
    }
  }

  predicate Distinct(words: seq<(string, Token)>) {
    forall i, j :: 0 <= i < j < |words| ==> words[i].0 != words[j].0
  }

  lemma {:induction false} WordInList(words: seq<(string, Token)>, i: nat, rest: string)
    requires i < |words| && AllWords(words) && Distinct(words) && Ends(rest)
    ensures MatchTokenRange(words[i].0 + rest, words) == Some((words[i].1, |words[i].0|))
  {
    FoundInList(words[i].0, words, rest);
  }

  // ----- architectures and other names -----

  lemma ListsAreWords()
    ensures AllWords(Keywords()) && AllWords(Actions())
  {
  }

  lemma ArchitecturesAreWords()
    ensures AllWords(Architectures())
  {
    hide IsWord, IsIdentifier;
    forall i | 0 <= i < |Architectures()|
      ensures IsWord(Architectures()[i].0)
    {
      if i < 14 {
        EarlyWords(i);
      } else {
        LateWords(i);
      }
    }
  }

  lemma EarlyWords(i: nat)
    requires i < 14
    ensures |Architectures()| == 27 && IsWord(Architectures()[i].0)
    ensures Architectures()[i].1 == TArch(Architectures()[i].0) && IsLower(Architectures()[i].0[0])
  {
  }

  lemma LateWords(i: nat)
    requires 14 <= i < 27
    ensures |Architectures()| == 27 && IsWord(Architectures()[i].0)
    ensures Architectures()[i].1 == TArch(Architectures()[i].0) && IsLower(Architectures()[i].0[0])
  {
  }

  /** A number that tells the words of the language from each other. */
  function Mark(w: string): nat
    requires |w| > 1
  {
    ((|w| * 128 + w[0] as nat) * 128 + w[1] as nat) * 128 + w[|w| - 2] as nat
  }

  /** Where the keyword or architecture with this number stands. */
  function Place(mark: nat): nat {
    if mark == 14463730 then 0
    else if mark == 5927785 then 1
    else if mark == 10090484 then 2
    else if mark == 10057331 then 3
    else if mark == 10115512 then 4
    else if mark == 10115896 then 5
    else if mark == 14556214 then 6
    else if mark == 8264115 then 7
    else if mark == 16281782 then 8
    else if mark == 14186808 then 9
    else if mark == 14186807 then 10
    else if mark == 7895410 then 11
    else if mark == 24852406 then 12
    else if mark == 10181432 then 13
    else if mark == 24868019 then 14
    else if mark == 18576566 then 15
    else if mark == 14382309 then 16
    else if mark == 20673715 then 17
    else if mark == 14382262 then 18
    else if mark == 10188016 then 19
    else if mark == 18624694 then 20
    else if mark == 14430451 then 21
    else if mark == 16529516 then 22
    else if mark == 12335158 then 23
    else if mark == 8140912 then 24
    else if mark == 12376496 then 25
    else if mark == 10279353 then 26
    else if mark == 16561334 then 27
    else if mark == 8189032 then 28
    else if mark == 10286181 then 29
    else if mark == 6091891 then 30
    else 31
  }

  lemma KeywordPlaced(i: nat)
    requires i < |Keywords()|
    ensures |Keywords()[i].0| > 1 && Place(Mark(Keywords()[i].0)) == i
  {
  }

  lemma Placed0(i: nat)
    requires 0 <= i < 7
    ensures |Architectures()| == 27 && |Architectures()[i].0| > 1 && Place(Mark(Architectures()[i].0)) == 4 + i
  {
    assert Architectures()[0].0 == "i386";
    assert Architectures()[1].0 == "i686";
    assert Architectures()[2].0 == "x86_64";
    assert Architectures()[3].0 == "x32";
    assert Architectures()[4].0 == "aarch64";
    assert Architectures()[5].0 == "armv8l";
    assert Architectures()[6].0 == "armv7l";
  }

  lemma Placed1(i: nat)
    requires 7 <= i < 14
    ensures |Architectures()| == 27 && |Architectures()[i].0| > 1 && Place(Mark(Architectures()[i].0)) == 4 + i
  {
    assert Architectures()[7].0 == "arm";
    assert Architectures()[8].0 == "loongarch64";
    assert Architectures()[9].0 == "m68k";
    assert Architectures()[10].0 == "mipsel64n32";
    assert Architectures()[11].0 == "mipsel64";
    assert Architectures()[12].0 == "mipsel";
    assert Architectures()[13].0 == "mips64n32";
  }

  lemma Placed2(i: nat)
    requires 14 <= i < 21
    ensures |Architectures()| == 27 && |Architectures()[i].0| > 1 && Place(Mark(Architectures()[i].0)) == 4 + i
  {
    assert Architectures()[14].0 == "mips64";
    assert Architectures()[15].0 == "mips";
    assert Architectures()[16].0 == "parisc64";
    assert Architectures()[17].0 == "parisc";
    assert Architectures()[18].0 == "ppc64le";
    assert Architectures()[19].0 == "ppc64";
    assert Architectures()[20].0 == "ppc";
  }

  lemma Placed3(i: nat)
    requires 21 <= i < 27
    ensures |Architectures()| == 27 && |Architectures()[i].0| > 1 && Place(Mark(Architectures()[i].0)) == 4 + i
  {
    assert Architectures()[21].0 == "s390x";
    assert Architectures()[22].0 == "s390";
    assert Architectures()[23].0 == "riscv64";
    assert Architectures()[24].0 == "sh4";
    assert Architectures()[25].0 == "sheb";
    assert Architectures()[26].0 == "sh";
  }

  lemma WordsDiffer()
    ensures Distinct(Keywords() + Architectures())
  {
    hide Place, Mark;
    var words := Keywords() + Architectures();
    forall i, j | 0 <= i < j < |words|
      ensures words[i].0 != words[j].0
    {
      WordPlaced(i);
      WordPlaced(j);
    }
  }

  lemma WordPlaced(i: nat)
    requires i < |Keywords() + Architectures()|
    ensures var w := (Keywords() + Architectures())[i].0; |w| > 1 && Place(Mark(w)) == i
  {
    hide Place, Mark;
    if i < 4 {
      KeywordPlaced(i);
    } else if i < 11 {
      Placed0(i - 4);
    } else if i < 18 {
      Placed1(i - 4);
    } else if i < 25 {
      Placed2(i - 4);
    } else {
      Placed3(i - 4);
    }
  }

  /** Each architecture is the token with its own name. */
  lemma NamesItself(i: nat)
    requires i < |Architectures()|
    ensures Architectures()[i].1 == TArch(Architectures()[i].0) && Architectures()[i].0 != "" && IsLower(Architectures()[i].0[0])
  {
    hide IsLower, IsIdentifier;
    if i < 14 {
      EarlyWords(i);
    } else {
      LateWords(i);
    }
  }

  lemma ArchitectureScans(i: nat, rest: string)
    requires i < |Architectures()| && Ends(rest)
    ensures var w := Architectures()[i].0; TokenAt(w + rest) == (TArch(w), |w|)
  {
    hide Keywords, Architectures, MatchTokenRange, Punctuation, Distinct, AllWords;
    var words, w := Keywords() + Architectures(), Architectures()[i].0;
    NamesItself(i);
    WordsDiffer();
    AllAreWords();
    var k := |Keywords()| + i;
    assert words[k] == Architectures()[i];
    WordInList(words, k, rest);
    assert (w + rest)[0] == w[0];
  }

  lemma AllAreWords()
    ensures AllWords(Keywords() + Architectures()) && AllWords(Actions())
    ensures forall i :: 0 <= i < |Architectures()| ==> Architectures()[i].0 != ""
  {
    ListsAreWords();
    ArchitecturesAreWords();
    hide Keywords, Architectures, Actions;
    assert forall i :: 0 <= i < |Architectures()| ==> IsWord(Architectures()[i].0);
  }

  /** A word that the language has a meaning for. */
  predicate Reserved(w: string) {
    || (exists i :: 0 <= i < |Keywords()| && Keywords()[i].0 == w)
    || (exists i :: 0 <= i < |Architectures()| && Architectures()[i].0 == w)
    || (exists i :: 0 <= i < |Actions()| && Actions()[i].0 == w)
  }

  lemma {:induction false} NotInLists(n: string, rest: string)
    requires IsWord(n) && Ends(rest) && !Reserved(n)
    ensures MatchTokenRange(n + rest, Keywords() + Architectures()).None? && MatchTokenRange(n + rest, Actions()).None?
  {
    AllAreWords();
    hide Keywords, Architectures, Actions, MatchTokenRange;
    FoundInList(n, Keywords() + Architectures(), rest);
    FoundInList(n, Actions(), rest);
    var words := Keywords() + Architectures();
    forall i | 0 <= i < |words|
      ensures words[i].0 != n
    {
      if i < |Keywords()| {
        assert words[i] == Keywords()[i];
      } else {
        assert words[i] == Architectures()[i - |Keywords()|];
      }
    }
  }

  /** Any other word is a name, and with a colon the label of a line. */
  lemma NameScans(n: string, rest: string)
    requires IsWord(n) && IsAlpha(n[0]) && Ends(rest) && !Reserved(n)
    ensures TokenAt(n + rest) == if rest[0] == ':' then (TLabelDecl(n), |n| + 1) else (TIdentifier(n), |n|)
  {
    hide Keywords, Architectures, Actions, MatchTokenRange, Punctuation, IdentifierLen, Reserved;
    var s := n + rest;
    NotInLists(n, rest);
    IdentifierEnds(n, rest);
    assert s[0] == n[0] && s[|n|] == rest[0] && s[..|n|] == n;
  }

  // ----- numbers -----

  /** The digits, in either case. */
  lemma DigitsAre(k: nat)
    requires k < 16
    ensures DigitValue("0123456789abcdef"[k]) == k && DigitValue("0123456789ABCDEF"[k]) == k
  {
  }

  /** The value of digits by their places. */
  lemma {:induction false} PlacesAre(s: string, c: char, base: nat)
    ensures DigitsValue("", base) == 0 && DigitsValue(s + [c], base) == DigitsValue(s, base) * base + DigitValue(c)
  {
    assert (s + [c])[..|s|] == s;
  }

  /** A number of 32 bits, or one that is too large. */
  function Numeral(v: nat, n: nat): (Token, nat) {
    if v < 0x1_0000_0000 then (TNumber(v), n) else (TOverflow, 1)
  }

  lemma DigitStarts(s: string)
    requires s != "" && IsDigit(s[0])
    ensures TokenAt(s) == Numeral(Strtoul(s).0, Strtoul(s).1)
  {
    hide Strtoul;
  }

  lemma {:induction false} HexNumber(x: char, d: string, rest: string)
    requires (x == 'x' || x == 'X') && d != "" && AllDigits(d, 16) && (rest == "" || DigitValue(rest[0]) >= 16)
    ensures TokenAt("0" + [x] + d + rest) == Numeral(DigitsValue(d, 16), 2 + |d|)
  {
    hide DigitsLen, DigitsValue, TokenAt;
    var s := "0" + [x] + d + rest;
    assert s[0] == '0' && s[1] == x && s[2] == d[0] && s[2..] == d + rest && s[2..2 + |d|] == d;
    DigitsEnd(d, rest, 16);
    DigitStarts(s);
  }

  lemma {:induction false} OctalNumber(d: string, rest: string)
    requires AllDigits(d, 8) && (rest == "" || !IsIdentifier(rest[0]))
    ensures TokenAt("0" + d + rest) == Numeral(DigitsValue("0" + d, 8), 1 + |d|)
  {
    hide DigitsLen, DigitsValue, TokenAt, Strtoul;
    assert "0" + d + rest == ("0" + d) + rest;
    ReadsOctal("0" + d, rest);
    DigitStarts("0" + d + rest);
  }

  lemma {:induction false} ReadsOctal(o: string, rest: string)
    requires o != "" && o[0] == '0' && AllDigits(o, 8) && (rest == "" || !IsIdentifier(rest[0]))
    ensures Strtoul(o + rest) == (DigitsValue(o, 8), |o|)
  {
    hide DigitsLen, DigitsValue;
    var s := o + rest;
    assert s[..|o|] == o && s[0] == '0';
    if |s| > 1 {
      assert s[1] == if |o| > 1 then o[1] else rest[0];
    }
    DigitsEnd(o, rest, 8);
  }

  lemma {:induction false} DecimalNumber(d: string, rest: string)
    requires d != "" && AllDigits(d, 10) && d[0] != '0' && (rest == "" || !IsIdentifier(rest[0]))
    ensures TokenAt(d + rest) == Numeral(DigitsValue(d, 10), |d|)
  {
    hide DigitsLen, DigitsValue, TokenAt;
    var s := d + rest;
    assert s[..|d|] == d && s[0] == d[0];
    DigitsEnd(d, rest, 10);
    DigitStarts(s);
  }

  // ----- the words as they are written -----

  /** The words that begin and join statements. */
  lemma KeywordsAre(rest: string)
    requires rest != "" && IsDelimiter(rest[0])
    ensures TokenAt("return" + rest) == (TReturn, 6)
    ensures TokenAt("if" + rest) == (TIf, 2)
    ensures TokenAt("goto" + rest) == (TGoto, 4)
    ensures TokenAt("else" + rest) == (TElse, 4)
  {
    hide TokenAt;
    KeywordScans(0, rest);
    KeywordScans(1, rest);
    KeywordScans(2, rest);
    KeywordScans(3, rest);
  }

  /** The actions. */
  lemma ActionsAre(rest: string)
    requires rest != "" && IsDelimiter(rest[0])
    ensures TokenAt("KILL_PROCESS" + rest) == (TAction(KillProc), 12)
    ensures TokenAt("KILL" + rest) == (TAction(Kill), 4)
    ensures TokenAt("ALLOW" + rest) == (TAction(Allow), 5)
    ensures TokenAt("NOTIFY" + rest) == (TAction(Notify), 6)
    ensures TokenAt("LOG" + rest) == (TAction(Log), 3)
    ensures TokenAt("TRACE" + rest) == (TAction(Action.Trace), 5)
    ensures TokenAt("TRAP" + rest) == (TAction(Trap), 4)
    ensures TokenAt("ERRNO" + rest) == (TAction(Errno), 5)
  {
    hide TokenAt;
    ActionScans(0, rest);
    ActionScans(1, rest);
    ActionScans(2, rest);
    ActionScans(3, rest);
    ActionScans(4, rest);
    ActionScans(5, rest);
    ActionScans(6, rest);
    ActionScans(7, rest);
  }

  /** The attributes of a system call. */
  lemma AttributesAre(rest: string)
    requires rest != "" && IsDelimiter(rest[0])
    ensures TokenAt("$mem" + rest) == (TMem, 4)
    ensures TokenAt("$scmp_data_len" + rest) == (TLen, 14)
    ensures TokenAt("$syscall_nr" + rest) == (TSyscall, 11)
    ensures TokenAt("$arch" + rest) == (TArchAttr, 5)
    ensures TokenAt("$low_pc" + rest) == (TLowPc, 7)
    ensures TokenAt("$high_pc" + rest) == (THighPc, 8)
    ensures TokenAt("$low_args" + rest) == (TLowArg, 9)
    ensures TokenAt("$high_args" + rest) == (THighArg, 10)
  {
    hide TokenAt;
    AttributeScans(0, rest);
    AttributeScans(1, rest);
    AttributeScans(2, rest);
    AttributeScans(3, rest);
    AttributeScans(4, rest);
    AttributeScans(5, rest);
    AttributeScans(6, rest);
    AttributeScans(7, rest);
  }

  /** The operators of assignments. */
  lemma AssignmentsAre(rest: string)
    requires rest != "" && IsDelimiter(rest[0])
    ensures TokenAt("+=" + rest) == (TAssign(Add), 2)
    ensures TokenAt("-=" + rest) == (TAssign(Sub), 2)
    ensures TokenAt("*=" + rest) == (TAssign(Mul), 2)
    ensures TokenAt("/=" + rest) == (TAssign(Div), 2)
    ensures TokenAt("<<=" + rest) == (TAssign(Lsh), 3)
    ensures TokenAt(">>=" + rest) == (TAssign(Rsh), 3)
    ensures TokenAt("&=" + rest) == (TAssign(And), 2)
    ensures TokenAt("|=" + rest) == (TAssign(Or), 2)
    ensures TokenAt("^=" + rest) == (TAssign(Xor), 2)
  {
    hide TokenAt;
    AssignScans(Add, rest);
    AssignScans(Sub, rest);
    AssignScans(Mul, rest);
    AssignScans(Div, rest);
    AssignScans(Lsh, rest);
    AssignScans(Rsh, rest);
    AssignScans(And, rest);
    AssignScans(Or, rest);
    AssignScans(Xor, rest);
  }

  /** The operators of comparisons. */
  lemma ComparisonsAre(rest: string)
    requires rest != "" && IsDelimiter(rest[0])
    ensures TokenAt("==" + rest) == (TCompare(EqualEqual), 2)
    ensures TokenAt("!=" + rest) == (TCompare(BangEqual), 2)
    ensures TokenAt(">=" + rest) == (TCompare(GreaterEqual), 2)
    ensures TokenAt(">" + rest) == (TCompare(GreaterThan), 1)
    ensures TokenAt("<=" + rest) == (TCompare(LessEqual), 2)
    ensures TokenAt("<" + rest) == (TCompare(LessThan), 1)
    ensures TokenAt("&" + rest) == (TCompare(AndBits), 1)
  {
    hide TokenAt;
    CompareScans(EqualEqual, rest);
    CompareScans(BangEqual, rest);
    CompareScans(GreaterEqual, rest);
    CompareScans(GreaterThan, rest);
    CompareScans(LessEqual, rest);
    CompareScans(LessThan, rest);
    CompareScans(AndBits, rest);
  }

  /** The registers and the other signs. */
  lemma SignsAre(rest: string)
    requires rest != "" && IsDelimiter(rest[0])
    ensures TokenAt("$A" + rest) == (TA, 2)
    ensures TokenAt("$X" + rest) == (TX, 2)
    ensures TokenAt("=" + rest) == (TEqual, 1)
    ensures TokenAt("-" + rest) == (TMinus, 1)
    ensures TokenAt("!" + rest) == (TBang, 1)
    ensures TokenAt("," + rest) == (TComma, 1)
  {
    hide TokenAt;
    OperatorScans(TA, rest);
    OperatorScans(TX, rest);
    OperatorScans(TEqual, rest);
    OperatorScans(TMinus, rest);
    OperatorScans(TBang, rest);
    OperatorScans(TComma, rest);
  }

  /** The brackets. */
  lemma BracketsAre(rest: string)
    requires rest != "" && IsDelimiter(rest[0])
    ensures TokenAt("[" + rest) == (TLBracket, 1)
    ensures TokenAt("]" + rest) == (TRBracket, 1)
    ensures TokenAt("(" + rest) == (TLParen, 1)
    ensures TokenAt(")" + rest) == (TRParen, 1)
  {
    hide TokenAt;
    OperatorScans(TLBracket, rest);
    OperatorScans(TRBracket, rest);
    OperatorScans(TLParen, rest);
    OperatorScans(TRParen, rest);
  }

  /** Blanks are passed over, and a newline ends the line. */
  lemma {:induction false} BlanksAre(s: string)
    ensures SkipBlanks(" " + s) == SkipBlanks(s) && SkipBlanks("\t" + s) == SkipBlanks(s) && SkipBlanks("\r" + s) == SkipBlanks(s)
    ensures SkipBlanks("\n" + s) == "\n" + s && TokenAt("\n" + s) == (TEol, 1) && TokenAt("." + s) == (TDot, 1)
  {
    assert (" " + s)[1..] == s && ("\t" + s)[1..] == s && ("\r" + s)[1..] == s;
    assert ("\n" + s)[0] == '\n' && ("." + s)[0] == '.';
  }
}
