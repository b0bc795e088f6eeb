/** The parser's numbering of source lines: every line gets a line number and the number of
    the statement at or after it, and labels are recorded with statement numbers. */
module Parser {
  import opened Word
  import opened Statements

  /** A source line after its tokens are read: the label it declares, empty when none, and
      what follows it. */
  datatype Line = Line(labelDecl: string, body: Body)

  /** An earlier line declares the same label. */
  predicate Duplicate(lines: seq<Line>, t: nat)
    requires t < |lines|
  {
    lines[t].labelDecl != "" && exists u :: 0 <= u < t && lines[u].labelDecl == lines[t].labelDecl
  }

  /** What the parser makes of a line: one that repeats a label is an error line. */
  function BodyOf(lines: seq<Line>, t: nat): Body
    requires t < |lines|
  {
    if Duplicate(lines, t) then Bad else lines[t].body
  }

  /** How many of the first `t` lines are numbered as statements. */
  function Count(lines: seq<Line>, t: nat): (n: nat)
    requires t <= |lines|
    ensures n <= t
  {
    if t == 0 then 0
    else Count(lines, t - 1) + (if BodyOf(lines, t - 1).Empty? then 0 else 1)
  }

  /** A statement that the limit on instructions forbids. */
  predicate TooMany(lines: seq<Line>, t: nat)
    requires t < |lines|
  {
    !Duplicate(lines, t) && !lines[t].body.Empty? && Count(lines, t) >= BPF_MAXINSNS
  }

  /** The line as the text vector holds it. */
  function StatementOf(lines: seq<Line>, t: nat): (s: Statement)
    requires t < |lines| < 4 * BPF_MAXINSNS + 2
  {
    Statement(lines[t].labelDecl, t + 1, 1 + Count(lines, t), BodyOf(lines, t))
  }

  /** Lines are counted from one; what stands before them is never looked at. */
  const BEFORE_LINES := Statement("", 0, 0, Bad)

  predicate TextOf(lines: seq<Line>, text: seq<Statement>, n: nat) {
    n <= |lines| < 4 * BPF_MAXINSNS + 2 && |text| == n + 1 && text[0] == BEFORE_LINES
    && forall t :: 0 <= t < n ==> text[t + 1] == StatementOf(lines, t)
  }

  /** The table maps exactly the labels declared on the first `n` lines, each to the number of
      the statement at or after its first declaration. */
  ghost predicate TableOf(lines: seq<Line>, table: map<string, u16>, n: nat)
    requires n <= |lines|
  {
    && (forall t :: 0 <= t < n && lines[t].labelDecl != "" ==> lines[t].labelDecl in table)
    && (forall l :: l in table ==> DeclaredIn(lines, l, table[l], n))
  }

  ghost predicate DeclaredIn(lines: seq<Line>, l: string, codeNr: nat, n: nat)
    requires n <= |lines|
  {
    exists t :: 0 <= t < n && FirstDeclares(lines, t, l) && codeNr == 1 + Count(lines, t)
  }

  predicate FirstDeclares(lines: seq<Line>, t: nat, l: string)
    requires t < |lines|
  {
    l != "" && lines[t].labelDecl == l && !Duplicate(lines, t)
  }

  lemma TextGrows(lines: seq<Line>, text: seq<Statement>, n: nat)
    requires n < |lines| && TextOf(lines, text, n)
    ensures TextOf(lines, text + [StatementOf(lines, n)], n + 1)
  {
  }

  lemma DeclaredBefore(lines: seq<Line>, table: map<string, u16>, n: nat)
    requires n < |lines| && TableOf(lines, table, n)
    ensures Duplicate(lines, n) <==> lines[n].labelDecl != "" && lines[n].labelDecl in table
  {
    var l := lines[n].labelDecl;
    if l in table {
      assert DeclaredIn(lines, l, table[l], n);
    }
  }

  lemma {:induction false} TableGrows(lines: seq<Line>, before: map<string, u16>, table: map<string, u16>, n: nat)
    requires n < |lines| && TableOf(lines, before, n)
    requires var l := lines[n].labelDecl;
             if l == "" || l in before then table == before
             else Count(lines, n) + 1 < 0x1_0000 && table == before[l := Count(lines, n) + 1]
    ensures TableOf(lines, table, n + 1)
  {
    hide Duplicate, Count, DeclaredIn, FirstDeclares;
    DeclaredBefore(lines, before, n);
    var next := n + 1;
    forall l | l in table
      ensures DeclaredIn(lines, l, table[l], next)
    {
      if l in before {
        DeclaredLater(lines, l, table[l], n);
      } else {
        DeclaredHere(lines, l, n);
      }
    }
  }

  lemma DeclaredLater(lines: seq<Line>, l: string, codeNr: nat, n: nat)
    requires n < |lines| && DeclaredIn(lines, l, codeNr, n)
    ensures DeclaredIn(lines, l, codeNr, n + 1)
  {
    hide Duplicate, Count;
  }

  lemma {:induction false} DeclaredHere(lines: seq<Line>, l: string, n: nat)
    requires n < |lines| && l != "" && lines[n].labelDecl == l && !Duplicate(lines, n)
    ensures DeclaredIn(lines, l, 1 + Count(lines, n), n + 1)
  {
    hide Duplicate, Count;
    assert FirstDeclares(lines, n, l);
  }

  /** The source with the line that ends it. */
  function WithEnd(lines: seq<Line>, eofLabel: string): seq<Line> {
    lines + [Line(eofLabel, Empty)]
  }

  lemma {:induction false} CountPrefix(lines: seq<Line>, all: seq<Line>, t: nat)
    requires lines <= all && t <= |lines|
    ensures Count(lines, t) == Count(all, t)
    ensures t < |lines| ==> TooMany(lines, t) == TooMany(all, t)
  {
    if t > 0 {
      CountPrefix(lines, all, t - 1);
    }
  }

  /** A line knows its number, and lies after the previous statement and at or before the one
      whose number it has; only that statement's own line is not empty. */
  predicate LineAt(text: seq<Statement>, code: seq<nat>, t: nat)
    requires 0 < t < |text|
  {
    var n := text[t].codeNr as int;
    && 1 <= n <= |code|
    && code[n - 1] < t
    && (n < |code| ==> t <= code[n])
    && (text[t].body.Empty? <==> !(n < |code| && t == code[n]))
    && text[t].textNr == t
  }

  predicate CodeAt(text: seq<Statement>, code: seq<nat>, c: nat)
    requires 0 < c < |code|
  {
    code[c] < |text| && text[code[c]].codeNr == c && !text[code[c]].body.Empty?
  }

  predicate Increasing(code: seq<nat>) {
    forall c, d :: 0 <= c < d < |code| ==> code[c] < code[d]
  }

  /** Lines and statements are numbered consistently; element 0 of both is not used. */
  predicate Numbered(text: seq<Statement>, code: seq<nat>) {
    && |text| >= 1 && |code| >= 1 && code[0] == 0
    && Increasing(code)
    && (forall t :: 0 < t < |text| ==> LineAt(text, code, t))
    && (forall c :: 0 < c < |code| ==> CodeAt(text, code, c))
  }

  /** Every label in the table is declared on a line numbered with its statement, or at the end
      of the source. */
  ghost predicate Declared(text: seq<Statement>, code: seq<nat>, table: map<string, u16>) {
    forall l :: l in table ==> table[l] == |code| || DeclaredOn(text, l, table[l])
  }

  ghost predicate DeclaredOn(text: seq<Statement>, l: string, n: nat) {
    exists t :: 0 < t < |text| && text[t].labelDecl == l && text[t].codeNr == n
  }

  lemma TextAt(lines: seq<Line>, text: seq<Statement>, n: nat, t: nat)
    requires TextOf(lines, text, n) && t < n
    ensures text[t + 1] == StatementOf(lines, t)
  {
  }

  lemma {:induction false} TableDeclared(lines: seq<Line>, text: seq<Statement>, code: seq<nat>, table: map<string, u16>)
    requires |text| >= 1 && TextOf(lines, text, |text| - 1) && TableOf(lines, table, |lines|)
    requires |lines| <= |text| && |code| == 1 + Count(lines, |text| - 1)
    ensures Declared(text, code, table)
  {
    hide TextOf, Duplicate, Count;
    forall l | l in table
      ensures table[l] == |code| || DeclaredOn(text, l, table[l])
    {
      assert DeclaredIn(lines, l, table[l], |lines|);
      var t :| 0 <= t < |lines| && FirstDeclares(lines, t, l) && table[l] == 1 + Count(lines, t);
      if t < |text| - 1 {
        TextAt(lines, text, |text| - 1, t);
      }
    }
  }

  lemma {:induction false} CodeFits(text: seq<Statement>, code: seq<nat>, c: nat)
    requires Numbered(text, code) && c < |code|
    ensures c <= code[c]
    ensures c == |code| - 1 ==> |code| <= |text|
  {
    if c > 0 {
      CodeFits(text, code, c - 1);
      assert CodeAt(text, code, c);
    }
  }

  class Parser {
    var textNr: u16
    var codeNr: u16
    var text: seq<Statement>
    var table: map<string, u16>

    /** The state between lines. */
    ghost predicate At(lines: seq<Line>, n: nat)
      reads this
    {
      && n <= |lines| < 4 * BPF_MAXINSNS + 2
      && textNr == n && codeNr == Count(lines, n)
      && TextOf(lines, text, n) && TableOf(lines, table, n)
    }

    constructor ()
      ensures textNr == 0 && codeNr == 0 && text == [BEFORE_LINES] && table == map[]
    {
      textNr, codeNr, text, table := 0, 0, [BEFORE_LINES], map[];
    }

    /** insert_key: false when the label was there before. */
    method InsertKey(l: string, nr: u16) returns (isNew: bool)
      modifies this`table
      ensures isNew == (l !in old(table))
      ensures table == if l in old(table) then old(table) else old(table)[l := nr]
    {
      isNew := l !in table;
      if isNew {
        table := table[l := nr];
      }
    }

    /** parse_line and the push after it; false when the program is given up as too long. */
    method ParseLine(ghost lines: seq<Line>, line: Line) returns (ok: bool)
      requires textNr < |lines| && line == lines[textNr] && At(lines, textNr)
      modifies this
      ensures ok == !TooMany(lines, old(textNr))
      ensures ok ==> At(lines, old(textNr) + 1)
    {
      hide TextOf, TableOf, Duplicate;
      ghost var n := textNr as nat;
      textNr := textNr + 1;
      codeNr := codeNr + 1;
      var statement := Statement(line.labelDecl, textNr, codeNr, line.body);
      ok := true;
      var isNew := true;
      DeclaredBefore(lines, table, n);
      if line.labelDecl != "" {
        isNew := InsertKey(line.labelDecl, codeNr);
      }
      if !isNew {
        statement := statement.(body := Bad);
      } else if line.body.Empty? {
        codeNr := codeNr - 1;
      } else if codeNr > BPF_MAXINSNS {
        return false;
      }
      TextGrows(lines, text, n);
      text := text + [statement];
      TableGrows(lines, old(table), table, n);
    }

    /** parser: reads lines up to the end of the source, which may declare one more label. */
    method Parse(lines: seq<Line>, eofLabel: string) returns (ok: bool, code: seq<nat>)
      requires textNr == 0 && codeNr == 0 && text == [BEFORE_LINES] && table == map[]
      requires |lines| < 4 * BPF_MAXINSNS
      modifies this
      ensures ok == !exists t :: 0 <= t < |lines| && TooMany(lines, t)
      ensures ok ==> var all := WithEnd(lines, eofLabel);
                     TextOf(all, text, |all| - (if Duplicate(all, |lines|) then 0 else 1)) && TableOf(all, table, |all|)
      ensures ok ==> Numbered(text, code) && Declared(text, code, table)
    {
      ghost var all := WithEnd(lines, eofLabel);
      code := [];
      var i := 0;
      while i < |lines|
        invariant 0 <= i <= |lines| && textNr == i && At(all, i)
        invariant forall t :: 0 <= t < i ==> !TooMany(all, t)
      {
        ok := ParseLine(all, lines[i]);
        if !ok {
          CountPrefix(lines, all, i);
          return;
        }
        i := i + 1;
      }
      forall t | 0 <= t < |lines|
        ensures !TooMany(lines, t)
      {
        CountPrefix(lines, all, t);
      }
      ok := EndOfFile(all, eofLabel);
      code := CodePointers(all);
      TableDeclared(all, text, code, table);
    }

    /** The line that ends the source: kept only when its label is a duplicate. */
    method EndOfFile(ghost all: seq<Line>, eofLabel: string) returns (ok: bool)
      requires |all| == textNr + 1 && all[textNr] == Line(eofLabel, Empty) && At(all, textNr)
      modifies this
      ensures ok
      ensures TextOf(all, text, |all| - (if Duplicate(all, |all| - 1) then 0 else 1)) && TableOf(all, table, |all|)
    {
      hide TextOf, TableOf, Duplicate;
      ghost var n := textNr as nat;
      ok := true;
      TextGrows(all, text, n);
      textNr := textNr + 1;
      codeNr := codeNr + 1;
      DeclaredBefore(all, table, n);
      if eofLabel != "" {
        var isNew := InsertKey(eofLabel, codeNr);
        if !isNew {
          text := text + [Statement(eofLabel, textNr, codeNr, Bad)];
        }
      }
      TableGrows(all, old(table), table, n);
    }

    /** The pointers to the statements, made after the text is complete. */
    method CodePointers(ghost lines: seq<Line>) returns (code: seq<nat>)
      requires 1 <= |text| <= |lines| + 1 && TextOf(lines, text, |text| - 1)
      ensures Numbered(text, code) && |code| == 1 + Count(lines, |text| - 1)
    {
      hide TextOf, Duplicate;
      code := [0];
      for i := 1 to |text|
        invariant |code| == 1 + Count(lines, i - 1)
        invariant Numbered(text[..i], code)
      {
        TextAt(lines, text, |text| - 1, i - 1);
        if !text[i].body.Empty? {
          NumberedNext(text[..i], text[i], code);
          code := code + [i];
        } else {
          NumberedEmpty(text[..i], text[i], code);
        }
        assert text[..i + 1] == text[..i] + [text[i]];
      }
      assert text[..|text|] == text;
    }
  }

  lemma NumberedNext(text: seq<Statement>, s: Statement, code: seq<nat>)
    requires Numbered(text, code) && s.codeNr == |code| && s.textNr == |text| && !s.body.Empty?
    ensures Numbered(text + [s], code + [|text|])
  {
    var text', code' := text + [s], code + [|text|];
    forall c | 0 < c < |code'|
      ensures CodeAt(text', code', c)
    {
      if c < |code| {
        assert CodeAt(text, code, c);
      }
    }
    forall t | 0 < t < |text'|
      ensures LineAt(text', code', t)
    {
      if t < |text| {
        assert LineAt(text, code, t);
      } else if |code| > 1 {
        assert CodeAt(text, code, |code| - 1);
      }
    }
    forall c, d | 0 <= c < d < |code'|
      ensures code'[c] < code'[d]
    {
      if d == |code| && c > 0 {
        assert CodeAt(text, code, c);
      }
    }
  }

  lemma NumberedEmpty(text: seq<Statement>, s: Statement, code: seq<nat>)
    requires Numbered(text, code) && s.codeNr == |code| && s.textNr == |text| && s.body.Empty?
    ensures Numbered(text + [s], code)
  {
    var text' := text + [s];
    forall c | 0 < c < |code|
      ensures CodeAt(text', code, c)
    {
      assert CodeAt(text, code, c);
    }
    forall t | 0 < t < |text'|
      ensures LineAt(text', code, t)
    {
      if t < |text| {
        assert LineAt(text, code, t);
      } else if |code| > 1 {
        assert CodeAt(text, code, |code| - 1);
      }
    }
  }
}
