/** Disassembling a program and assembling the text gives the program back. */
module RoundTrip {
  import opened Bpf
  import opened Statements
  import opened Parser
  import opened Acceptance
  import opened Assembler
  import opened Simulation
  import opened ScratchCheck
  import opened Scratch
  import opened Decoder
  import opened Scanner
  import opened Formatter
  import opened Lexing
  import opened Grammar
  import opened Reparsing
  import opened Pipeline

  const TITLE := "Label  CODE  JT   JF      K"
  const RULE := "---------------------------------"

  /** The statements of a program, as decode_filters leaves them. */
  predicate DecodedProgram(prog: seq<Filter>, v: seq<Statement>) {
    && 0 < |prog| <= BPF_MAXINSNS && |v| == |prog| + 1
    && forall i :: 0 <= i < |prog| ==> Decodable(prog[i]) && DecodedAt(prog[i], v[i + 1], i)
  }

  /** The text of a printed program, line by line: a heading, the statements and a rule. */
  function LineText(prog: seq<Filter>, v: seq<Statement>, t: nat): string
    requires |v| == |prog| + 1 && t < |prog| + 3
  {
    var pieces := if t == 0 then [Note(TITLE)]
                  else if t == 1 || t == |prog| + 2 then [Note(RULE)]
                  else LinePieces(t - 1, prog[t - 2], v[t - 1].body);
    Printed(pieces) + "\n"
  }

  /** The lines as the parser reads them. */
  function ReadBack(prog: seq<Filter>, v: seq<Statement>, names: Names): (lines: seq<Line>)
    requires |v| == |prog| + 1
    ensures |lines| == |prog| + 3
  {
    seq(|prog| + 3, t requires 0 <= t < |prog| + 3 => ParseLine(ScanLine(LineText(prog, v, t)), names))
  }

  predicate IsStatementLine(prog: seq<Filter>, t: nat) {
    2 <= t < |prog| + 2
  }

  /** What line `t` is read as. */
  function ExpectedLine(prog: seq<Filter>, v: seq<Statement>, t: nat): Line
    requires |v| == |prog| + 1
  {
    if IsStatementLine(prog, t) then Line(DefaultLabel(t - 1), Labelled(v[t - 1].body, t - 1)) else Line("", Empty)
  }

  lemma CommentsHaveNoNewline()
    ensures '\n' !in TITLE && '\n' !in RULE
  {
  }

  lemma LineTextIs(prog: seq<Filter>, v: seq<Statement>, t: nat)
    requires |v| == |prog| + 1 && t < |prog| + 3
    ensures LineText(prog, v, t)
         == Printed(if IsStatementLine(prog, t) then LinePieces(t - 1, prog[t - 2], v[t - 1].body)
                    else [Note(if t == 0 then TITLE else RULE)]) + "\n"
  {
    hide Printed, LinePieces;
  }

  lemma ReadBackAt(prog: seq<Filter>, v: seq<Statement>, names: Names, t: nat)
    requires |v| == |prog| + 1 && t < |prog| + 3 && DecodedProgram(prog, v)
    ensures ReadBack(prog, v, names)[t] == ExpectedLine(prog, v, t)
  {
    hide DecodedProgram, ParseLine, ScanLine, Printed, LinePieces, DefaultLabel, Labelled, LineText, Writable;
    CommentsHaveNoNewline();
    LineTextIs(prog, v, t);
    if IsStatementLine(prog, t) {
      WritableAt(prog, v, t - 2);
      LineReadBack(t - 1, prog[t - 2], v[t - 1].body, names);
    } else {
      CommentReadBack(if t == 0 then TITLE else RULE, names);
    }
  }

  lemma WritableAt(prog: seq<Filter>, v: seq<Statement>, i: nat)
    requires DecodedProgram(prog, v) && i < |prog|
    ensures Decodable(prog[i]) && InstrOf(v[i + 1].body) == Some(Kept(Decode(prog[i]))) && Writable(v[i + 1].body)
    ensures !v[i + 1].body.Empty? && !v[i + 1].body.Bad?
  {
    hide InstrOf, Decode, Kept, AsmBody, CanAssemble, NormalJump, Decodable, Exact;
    assert DecodedAt(prog[i], v[i + 1], i);
  }

  /** Lines that read back as expected: what the rest of the argument needs to know of them. */
  predicate Expected(prog: seq<Filter>, v: seq<Statement>, lines: seq<Line>) {
    && DecodedProgram(prog, v) && |lines| == |prog| + 4
    && forall t :: 0 <= t < |lines| ==> lines[t] == ExpectedLine(prog, v, t)
  }

  lemma NoDuplicates(prog: seq<Filter>, v: seq<Statement>, lines: seq<Line>, t: nat)
    requires Expected(prog, v, lines) && t < |lines|
    ensures !Duplicate(lines, t)
  {
    hide DefaultLabel, Labelled;
    forall u | 0 <= u < t
      ensures lines[t].labelDecl == "" || lines[u].labelDecl != lines[t].labelDecl
    {
      if IsStatementLine(prog, t) && IsStatementLine(prog, u) && DefaultLabel(u - 1) == DefaultLabel(t - 1) {
        LabelsDiffer(u - 1, t - 1);
      }
    }
  }

  /** The number of statements before a line. */
  function StatementsBefore(prog: seq<Filter>, t: nat): nat {
    if t <= 2 then 0 else if t <= |prog| + 2 then t - 2 else |prog|
  }

  lemma {:induction false} CountExpected(prog: seq<Filter>, v: seq<Statement>, lines: seq<Line>, t: nat)
    requires Expected(prog, v, lines) && t <= |lines|
    ensures Count(lines, t) == StatementsBefore(prog, t)
  {
    hide DefaultLabel;
    if t > 0 {
      CountExpected(prog, v, lines, t - 1);
      NoDuplicates(prog, v, lines, t - 1);
      if IsStatementLine(prog, t - 1) {
        WritableAt(prog, v, t - 3);
      }
    }
  }

  /** The source that the printed program is read as, from its lines and the end of the text. */
  ghost predicate IsReadBack(src: Source, prog: seq<Filter>, v: seq<Statement>, lines: seq<Line>) {
    && |lines| == |prog| + 4 && 0 < |prog| && Expected(prog, v, lines)
    && TextOf(lines, src.text, |lines| - 1) && TableOf(lines, src.table, |lines|) && src.WellFormed()
  }

  lemma LineNumbered(src: Source, prog: seq<Filter>, v: seq<Statement>, lines: seq<Line>, t: nat)
    requires IsReadBack(src, prog, v, lines) && t < |lines| - 1
    ensures |src.text| == |lines| == |prog| + 4
    ensures src.text[t + 1].codeNr == 1 + StatementsBefore(prog, t)
    ensures src.text[t + 1].body == ExpectedLine(prog, v, t).body
    ensures IsStatementLine(prog, t) ==> !src.text[t + 1].body.Empty?
  {
    hide Duplicate, Count, DefaultLabel, TableOf, Source.WellFormed, StatementsBefore;
    NoDuplicates(prog, v, lines, t);
    CountExpected(prog, v, lines, t);
    TextAt(lines, src.text, |lines| - 1, t);
    if IsStatementLine(prog, t) {
      WritableAt(prog, v, t - 2);
    }
  }

  /** Statement `c` of the source is the decoded one, with its arms named. */
  lemma StatementReadBack(src: Source, prog: seq<Filter>, v: seq<Statement>, lines: seq<Line>, c: nat)
    requires IsReadBack(src, prog, v, lines) && 1 <= c <= |prog|
    ensures c < |src.code| && src.At(c) == Labelled(v[c].body, c)
  {
    hide Expected, TextOf, TableOf, Labelled, Declared;
    LineNumbered(src, prog, v, lines, c + 1);
    assert LineAt(src.text, src.code, c + 2);
  }

  lemma CodeReadBack(src: Source, prog: seq<Filter>, v: seq<Statement>, lines: seq<Line>)
    requires IsReadBack(src, prog, v, lines)
    ensures |src.code| == |prog| + 1
  {
    hide Expected, TextOf, TableOf, Labelled, Declared;
    StatementReadBack(src, prog, v, lines, |prog|);
    if |src.code| > |prog| + 1 {
      var c := |prog| + 1;
      assert CodeAt(src.text, src.code, c);
      AtStatement(src, c);
      LineNumbered(src, prog, v, lines, 0);
      LineNumbered(src, prog, v, lines, src.code[c] - 1);
    }
  }

  /** The labels of the source are the names of its statements. */
  lemma LabelReadBack(src: Source, prog: seq<Filter>, v: seq<Statement>, lines: seq<Line>, k: nat)
    requires IsReadBack(src, prog, v, lines)
    ensures DefaultLabel(k) in src.table <==> 1 <= k <= |prog|
    ensures 1 <= k <= |prog| ==> src.table[DefaultLabel(k)] == k
  {
    hide TextOf, Labelled, Declared, Numbered, Duplicate, Count, DefaultLabel, Source.WellFormed;
    var l := DefaultLabel(k);
    DefaultLabelIsLabel(k);
    if l in src.table {
      assert DeclaredIn(lines, l, src.table[l], |lines|);
      var t :| 0 <= t < |lines| && FirstDeclares(lines, t, l) && src.table[l] == 1 + Count(lines, t);
      assert lines[t] == ExpectedLine(prog, v, t);
      assert IsStatementLine(prog, t);
      LabelsDiffer(k, t - 1);
      CountExpected(prog, v, lines, t);
    }
    if 1 <= k <= |prog| {
      assert lines[k + 1] == ExpectedLine(prog, v, k + 1);
    }
  }

  /** Where the source sends an arm: to the statement the decoder says, or nowhere. */
  lemma ArmReadBack(src: Source, prog: seq<Filter>, v: seq<Statement>, lines: seq<Line>, c: nat, l: Label)
    requires IsReadBack(src, prog, v, lines) && 1 <= c <= |prog| && l.key == ""
    ensures var d := c + l.codeNr + 1;
            src.Dest(Label(ArmLabel(l, c), 0), c) == if d <= |prog| then d else 0xffff
  {
    hide DefaultLabel, IsReadBack;
    DefaultLabelIsLabel(c + l.codeNr + 1);
    LabelReadBack(src, prog, v, lines, c + l.codeNr + 1);
  }

  /** Jumps with the same comparison and distances mean the same. */
  lemma SameJump(b: Body, e: Body)
    requires b.Jump? && e.Jump? && b.conditional == e.conditional && b.jt.codeNr == e.jt.codeNr
    requires b.conditional ==> b.bang == e.bang && b.cmp == e.cmp && b.cmpobj == e.cmpobj && b.jf.codeNr == e.jf.codeNr
    ensures InstrOf(b) == InstrOf(e)
  {
  }

  /** Naming the arms and resolving the names leads to the same distances. */
  lemma JumpReadBack(src: Source, b: Body, c: nat)
    requires |src.code| >= 1 && b.Jump? && b.jt.key == "" && b.jf.key == "" && src.At(c) == Labelled(b, c) && src.Encodable(c)
    requires forall l: Label :: l == b.jt || l == b.jf ==>
               (var d := src.Dest(Label(ArmLabel(l, c), 0), c); d == c + l.codeNr + 1 || d > src.Len())
    ensures InstrOf(src.Resolved(c)) == InstrOf(b)
  {
    hide InstrOf, DefaultLabel;
    var e := src.Resolved(c);
    assert src.Dest(Label(ArmLabel(b.jt, c), 0), c) == c + b.jt.codeNr + 1;
    if b.conditional && b.jf.codeNr != 0 {
      assert src.Dest(Label(ArmLabel(b.jf, c), 0), c) == c + b.jf.codeNr + 1;
    }
    SameJump(e, b);
  }

  lemma ResolvedReadBack(src: Source, prog: seq<Filter>, v: seq<Statement>, lines: seq<Line>, c: nat)
    requires IsReadBack(src, prog, v, lines) && 1 <= c <= |prog| && src.Encodable(c)
    ensures InstrOf(src.Resolved(c)) == InstrOf(v[c].body)
  {
    hide IsReadBack, DefaultLabel, InstrOf, Source.Encodable, Source.Dest, ArmLabel;
    StatementReadBack(src, prog, v, lines, c);
    CodeReadBack(src, prog, v, lines);
    DecodedSize(src, prog, v, lines);
    WritableAt(prog, v, c - 1);
    var b := v[c].body;
    if b.Jump? {
      ArmReadBack(src, prog, v, lines, c, b.jt);
      ArmReadBack(src, prog, v, lines, c, b.jf);
      JumpReadBack(src, b, c);
    } else {
      OtherReadBack(src, b, c);
    }
  }

  lemma OtherReadBack(src: Source, b: Body, c: nat)
    requires |src.code| >= 1 && !b.Jump? && src.At(c) == Labelled(b, c) && src.Encodable(c)
    ensures InstrOf(src.Resolved(c)) == InstrOf(b)
  {
  }

  lemma DecodedSize(src: Source, prog: seq<Filter>, v: seq<Statement>, lines: seq<Line>)
    requires IsReadBack(src, prog, v, lines)
    ensures DecodedProgram(prog, v) && src.WellFormed()
  {
  }

  /** What is left of a program once it is a text: the words of its statements. */
  function Canonical(prog: seq<Filter>): (c: seq<Filter>)
    ensures |c| == |prog|
  {
    seq(|prog|, i requires 0 <= i < |prog| => Encode(Kept(Decode(prog[i]))))
  }

  lemma CanonicalAt(prog: seq<Filter>, i: nat)
    requires i < |prog|
    ensures Decode(Canonical(prog)[i]) == Kept(Decode(prog[i]))
  {
    DecodeEncode(Kept(Decode(prog[i])));
  }

  /** Nothing of a program is lost exactly when all its words are exact. */
  lemma CanonicalExactly(prog: seq<Filter>)
    requires forall i :: 0 <= i < |prog| ==> Decodable(prog[i])
    ensures Canonical(prog) == prog <==> forall i :: 0 <= i < |prog| ==> Exact(prog[i])
  {
    hide Decode, Encode, Kept, Exact, Decodable;
    forall i | 0 <= i < |prog|
      ensures Canonical(prog)[i] == prog[i] <==> Exact(prog[i])
    {
      EncodesBack(prog[i]);
    }
  }

  /** Statements that can be encoded stand for the words of the program they were decoded from. */
  lemma MeansCanonical(src: Source, prog: seq<Filter>, v: seq<Statement>, lines: seq<Line>)
    requires IsReadBack(src, prog, v, lines)
    requires forall c :: 0 < c < |src.code| ==> |src.code| >= 1 && src.Encodable(c)
    ensures MeansWords(src, Canonical(prog))
  {
    hide IsReadBack, InstrOf, Decode, Kept, Source.Encodable, Source.Resolved, Canonical;
    CodeReadBack(src, prog, v, lines);
    DecodedSize(src, prog, v, lines);
    forall c | 0 < c < |src.code|
      ensures MeansWord(src, Canonical(prog), c)
    {
      WritableAt(prog, v, c - 1);
      ResolvedReadBack(src, prog, v, lines, c);
      CanonicalAt(prog, c - 1);
    }
  }

  /** When the resolver accepts the text of any program, the assembler makes of it the words of
      the statements; that is the program when its words are exact. */
  lemma AssemblesToProgram(src: Source, prog: seq<Filter>, v: seq<Statement>, lines: seq<Line>)
    requires IsReadBack(src, prog, v, lines) && src.Accepted()
    ensures Program(src) == Canonical(prog)
  {
    hide IsReadBack, InstrOf, Decode, Encode, Kept, Source.Encodable, Source.Resolved, InstrAt;
    CodeReadBack(src, prog, v, lines);
    DecodedSize(src, prog, v, lines);
    forall i | 0 <= i < |prog|
      ensures Program(src)[i] == Canonical(prog)[i]
    {
      WritableAt(prog, v, i);
      InstrAtValid(src, i + 1);
      ResolvedReadBack(src, prog, v, lines, i + 1);
    }
  }

  /** The lines of a printed program, with the end of the text, read back as expected. */
  lemma LinesExpected(src: Source, prog: seq<Filter>, v: seq<Statement>, names: Names)
    requires DecodedProgram(prog, v) && IsSourceOf(src, ReadBack(prog, v, names), "")
    ensures IsReadBack(src, prog, v, WithEnd(ReadBack(prog, v, names), ""))
  {
    hide TextOf, TableOf, Source.WellFormed, DecodedProgram, ReadBack, ExpectedLine, Duplicate;
    ProgramSize(prog, v);
    var lines := ReadBack(prog, v, names);
    var all := WithEnd(lines, "");
    forall t | 0 <= t < |all|
      ensures all[t] == ExpectedLine(prog, v, t)
    {
      if t < |lines| {
        ReadBackAt(prog, v, names, t);
      } else {
        LastLine(prog, v);
      }
    }
    NoDuplicates(prog, v, all, |lines|);
  }

  lemma LastLine(prog: seq<Filter>, v: seq<Statement>)
    requires |v| == |prog| + 1
    ensures ExpectedLine(prog, v, |prog| + 3) == Line("", Empty)
  {
  }

  lemma ProgramSize(prog: seq<Filter>, v: seq<Statement>)
    requires DecodedProgram(prog, v)
    ensures 0 < |prog| <= BPF_MAXINSNS && |v| == |prog| + 1
  {
  }

  /** A printed program is never too long to be read. */
  lemma NotTooMany(prog: seq<Filter>, v: seq<Statement>, names: Names, t: nat)
    requires DecodedProgram(prog, v) && t < |ReadBack(prog, v, names)|
    ensures !TooMany(ReadBack(prog, v, names), t)
  {
    hide DecodedProgram, ReadBack, ExpectedLine, Duplicate;
    ProgramSize(prog, v);
    var lines := ReadBack(prog, v, names);
    var all := WithEnd(lines, "");
    forall u | 0 <= u < |all|
      ensures all[u] == ExpectedLine(prog, v, u)
    {
      if u < |lines| {
        ReadBackAt(prog, v, names, u);
      } else {
        LastLine(prog, v);
      }
    }
    CountExpected(prog, v, all, t);
    CountPrefix(lines, all, t);
    if !IsStatementLine(prog, t) {
      EmptyLine(prog, v, t);
    }
  }

  lemma EmptyLine(prog: seq<Filter>, v: seq<Statement>, t: nat)
    requires |v| == |prog| + 1 && !IsStatementLine(prog, t)
    ensures ExpectedLine(prog, v, t).body.Empty?
  {
  }

  /** A statement read back from a valid instruction can be encoded. */
  lemma EncodableBack(src: Source, prog: seq<Filter>, v: seq<Statement>, lines: seq<Line>, c: nat)
    requires IsReadBack(src, prog, v, lines) && 1 <= c <= |prog|
    requires ValidInstr(Kept(Decode(prog[c - 1])), c - 1, |prog|)
    ensures src.Encodable(c)
  {
    hide IsReadBack, DefaultLabel, InstrOf, Decode, Kept, Source.Dest, ArmLabel;
    StatementReadBack(src, prog, v, lines, c);
    CodeReadBack(src, prog, v, lines);
    DecodedSize(src, prog, v, lines);
    WritableAt(prog, v, c - 1);
    var b := v[c].body;
    if b.Jump? {
      ArmReadBack(src, prog, v, lines, c, b.jt);
      ArmReadBack(src, prog, v, lines, c, b.jf);
      JumpWithin(b, Kept(Decode(prog[c - 1])), c, |prog|);
      JumpEncodable(src, b, c);
    } else {
      OtherEncodable(src, b, c, c - 1, |prog|);
    }
  }

  /** The distances of a valid jump stay inside the program. */
  lemma JumpWithin(b: Body, i: Instr, c: nat, len: nat)
    requires b.Jump? && InstrOf(b) == Some(i) && c >= 1 && ValidInstr(i, c - 1, len)
    ensures c + b.jt.codeNr + 1 <= len
    ensures b.conditional ==> c + b.jf.codeNr + 1 <= len && b.jt.codeNr <= 0xff && b.jf.codeNr <= 0xff
  {
  }

  lemma JumpEncodable(src: Source, b: Body, c: nat)
    requires |src.code| >= 1 && b.Jump? && src.At(c) == Labelled(b, c)
    requires src.Dest(Label(ArmLabel(b.jt, c), 0), c) == c + b.jt.codeNr + 1 <= src.Len()
    requires b.conditional ==> src.Dest(Label(ArmLabel(b.jf, c), 0), c) == c + b.jf.codeNr + 1 <= src.Len()
    requires b.conditional ==> b.jt.codeNr <= 0xff && b.jf.codeNr <= 0xff
    ensures src.Encodable(c)
  {
    hide ArmLabel;
  }

  lemma OtherEncodable(src: Source, b: Body, c: nat, pc: nat, len: nat)
    requires |src.code| >= 1 && !b.Jump? && src.At(c) == Labelled(b, c)
    requires InstrOf(b).Some? && ValidInstr(InstrOf(b).value, pc, len)
    ensures src.Encodable(c)
  {
  }

  /** The text of a program is accepted exactly when the words of its statements pass the checks
      of the kernel, that of scratch memory among them; the assembler then gives these words. */
  lemma RoundTripExactly(src: Source, prog: seq<Filter>, v: seq<Statement>, names: Names)
    requires DecodedProgram(prog, v) && IsSourceOf(src, ReadBack(prog, v, names), "")
    ensures src.Accepted() <==> ValidProgram(Canonical(prog)) && ScratchChecked(Canonical(prog))
    ensures src.Accepted() ==> Program(src) == Canonical(prog)
  {
    hide IsReadBack, Expected, ReadBack, ValidProgram, ScratchChecked, Source.Accepted, Program, IsSourceOf, DecodedProgram, Canonical;
    ProgramSize(prog, v);
    var lines := WithEnd(ReadBack(prog, v, names), "");
    LinesExpected(src, prog, v, names);
    if src.Accepted() {
      AssemblesToProgram(src, prog, v, lines);
      AcceptedIsValid(src);
      AcceptedIsChecked(src);
    }
    if ValidProgram(Canonical(prog)) && ScratchChecked(Canonical(prog)) {
      CheckedIsAccepted(src, prog, v, lines);
    }
  }

  lemma CheckedIsAccepted(src: Source, prog: seq<Filter>, v: seq<Statement>, lines: seq<Line>)
    requires IsReadBack(src, prog, v, lines) && ValidProgram(Canonical(prog)) && ScratchChecked(Canonical(prog))
    ensures src.Accepted()
  {
    hide IsReadBack, Decode, Kept, Encode, Source.Encodable, Source.Written, Canonical, ScratchChecked, MeansWords, ReadsMem, Source.At;
    CodeReadBack(src, prog, v, lines);
    var words := Canonical(prog);
    forall c | 0 < c < |src.code|
      ensures src.Encodable(c)
    {
      assert ValidAt(words, c - 1);
      CanonicalAt(prog, c - 1);
      EncodableBack(src, prog, v, lines, c);
    }
    MeansCanonical(src, prog, v, lines);
    ReadsWrittenIsChecked(src, words);
    forall c | 0 < c < |src.code|
      ensures src.Fine(c)
    {
    }
    CanonicalAt(prog, |prog| - 1);
    EndsWithReturn(src, prog, v, lines);
  }

  lemma EndsWithReturn(src: Source, prog: seq<Filter>, v: seq<Statement>, lines: seq<Line>)
    requires IsReadBack(src, prog, v, lines) && |prog| > 0
    requires Kept(Decode(prog[|prog| - 1])).ReturnK? || Kept(Decode(prog[|prog| - 1])).ReturnA?
    ensures |src.code| >= 1 && src.At(src.Len()).Return?
  {
    hide IsReadBack, Decode, DefaultLabel;
    CodeReadBack(src, prog, v, lines);
    DecodedSize(src, prog, v, lines);
    StatementReadBack(src, prog, v, lines, |prog|);
    WritableAt(prog, v, |prog| - 1);
  }

  /** The text of a line has nothing in it that the scanner does not know. */
  lemma LineTextScans(prog: seq<Filter>, v: seq<Statement>, t: nat)
    requires DecodedProgram(prog, v) && t < |prog| + 3
    ensures var s := LineText(prog, v, t); s != "" && s[|s| - 1] == '\n' && TUnknown !in ScanLine(s)
  {
    hide ScanLine, LinePieces, DecodedProgram, AllSeparated, Printed, TokensOf;
    ProgramSize(prog, v);
    CommentsHaveNoNewline();
    var pieces := if t == 0 then [Note(TITLE)]
                  else if t == 1 || t == |prog| + 2 then [Note(RULE)]
                  else LinePieces(t - 1, prog[t - 2], v[t - 1].body);
    if IsStatementLine(prog, t) {
      WritableAt(prog, v, t - 2);
      LineSeparated(t - 1, prog[t - 2], v[t - 1].body);
    } else {
      NoteAlone(if t == 0 then TITLE else RULE);
    }
    PiecesScan(pieces);
    NothingUnknown(pieces, "\n");
  }

  /** print_prog: the text of a program. */
  method PrintProgram(prog: seq<Filter>, v: seq<Statement>) returns (text: seq<string>)
    requires DecodedProgram(prog, v)
    ensures |text| == |prog| + 3 && forall t :: 0 <= t < |text| ==> text[t] == LineText(prog, v, t)
  {
    hide LineText, DecodedProgram;
    ProgramSize(prog, v);
    text := [];
    for t := 0 to |prog| + 3
      invariant |text| == t && forall u :: 0 <= u < t ==> text[u] == LineText(prog, v, u)
    {
      var line := PrintLineOf(prog, v, t);
      text := text + [line];
    }
  }

  method PrintLineOf(prog: seq<Filter>, v: seq<Statement>, t: nat) returns (line: string)
    requires DecodedProgram(prog, v) && t < |prog| + 3
    ensures line == LineText(prog, v, t)
  {
    hide LinePieces, Printed;
    var p := new Printer();
    if 2 <= t < |prog| + 2 {
      p.PrintLine(t - 1, prog[t - 2], v[t - 1].body);
      return p.text;
    }
    p.Put([Note(if t == 0 then TITLE else RULE)]);
    return p.text + "\n";
  }

  /** Disassembling a program and assembling the text gives the words of its statements when
      these pass the checks of the kernel, and an error otherwise. */
  method Reassemble(prog: seq<Filter>, names: Names) returns (words: Option<seq<Filter>>)
    requires 0 < |prog| <= BPF_MAXINSNS && forall i :: 0 <= i < |prog| ==> Decodable(prog[i])
    ensures words == if ValidProgram(Canonical(prog)) && ScratchChecked(Canonical(prog)) then Some(Canonical(prog)) else None
    ensures words == Some(prog) <==>
              ValidProgram(prog) && ScratchChecked(prog) && forall i :: 0 <= i < |prog| ==> Exact(prog[i])
  {
    hide DecodedAt, Decodable, Exact, ValidProgram, ScratchChecked, LineText, ParseLine, ScanLine, ScanFrom, TooMany, IsSourceOf, Source.Accepted, Program, Canonical;
    var v := DecodeFilters(prog);
    var text := PrintProgram(prog, v);
    var lines, unknown, tokens := [], 0, [];
    for t := 0 to |text|
      invariant |lines| == t && lines == ReadBack(prog, v, names)[..t] && unknown == 0
    {
      LineTextScans(prog, v, t);
      KnownScans(text[t], 0);
      tokens, unknown := ScanTokens(text[t], unknown);
      var p := new LineParser(tokens, names);
      var line := p.Parse();
      lines := lines + [line];
    }
    assert lines == ReadBack(prog, v, names);
    LinesGrammatical(prog, v, names);
    forall t | 0 <= t < |lines|
      ensures !TooMany(lines, t)
    {
      NotTooMany(prog, v, names, t);
    }
    ghost var src;
    words, src := AssembleSource(lines, "");
    RoundTripExactly(src, prog, v, names);
    CanonicalExactly(prog);
  }

  /** A program that the kernel's other checks let pass and whose words are exact, and which is
      still no source, since it reads a scratch word first. */
  lemma UncheckedProgram() returns (prog: seq<Filter>)
    ensures |prog| == 2 && ValidProgram(prog) && !ScratchChecked(prog)
    ensures forall i :: 0 <= i < |prog| ==> Decodable(prog[i]) && Exact(prog[i])
  {
    prog := [Encode(LoadMem(A, 0)), Encode(ReturnA)];
    DecodeEncode(LoadMem(A, 0));
    DecodeEncode(ReturnA);
    assert !LoadsCertain(prog, 0);
    forall i | 0 <= i < |prog|
      ensures ValidAt(prog, i) && Decodable(prog[i]) && Exact(prog[i])
    {
    }
  }

  lemma LinesGrammatical(prog: seq<Filter>, v: seq<Statement>, names: Names)
    requires DecodedProgram(prog, v)
    ensures AllGrammatical(ReadBack(prog, v, names))
  {
    hide DecodedProgram, ReadBack, DefaultLabel;
    ProgramSize(prog, v);
    forall t | 0 <= t < |prog| + 3
      ensures Grammatical(ReadBack(prog, v, names)[t].body)
    {
      ReadBackAt(prog, v, names, t);
      if IsStatementLine(prog, t) {
        WritableAt(prog, v, t - 2);
        if v[t - 1].body.Jump? {
          DefaultLabelIsLabel(t - 1 + v[t - 1].body.jt.codeNr + 1);
        }
      }
    }
  }
}
