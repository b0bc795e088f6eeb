/** The commands from parsed lines on: assembling a source and emulating it. */
module Pipeline {
  import opened Word
  import opened Bpf
  import opened Parser
  import opened Statements
  import opened Acceptance
  import opened Assembler
  import opened Resolver
  import opened Machine
  import opened Emulation
  import opened Simulation
  import opened ScratchCheck
  import opened Scratch
  import opened Emulator

  /** The text, pointers and labels are those of the lines. */
  ghost predicate IsSourceOf(src: Source, lines: seq<Line>, eofLabel: string)
    requires |lines| < 4 * BPF_MAXINSNS
  {
    var all := WithEnd(lines, eofLabel);
    && TextOf(all, src.text, |all| - (if Duplicate(all, |lines|) then 0 else 1))
    && TableOf(all, src.table, |all|)
    && src.WellFormed()
  }

  /** A statement goes beyond the limit on instructions. */
  predicate TooLong(lines: seq<Line>) {
    exists t :: 0 <= t < |lines| && TooMany(lines, t)
  }

  predicate AllGrammatical(lines: seq<Line>) {
    forall t :: 0 <= t < |lines| ==> Grammatical(lines[t].body)
  }

  /** A source that is not too long, parsed and resolved; nothing when it has an error. */
  method Load(lines: seq<Line>, eofLabel: string) returns (loaded: Option<(array<Statement>, seq<nat>)>, ghost src: Source)
    requires |lines| < 4 * BPF_MAXINSNS && AllGrammatical(lines)
    ensures loaded.Some? ==>
              && !TooLong(lines) && IsSourceOf(src, lines, eofLabel) && src.Accepted()
              && fresh(loaded.value.0) && loaded.value.1 == src.code
              && Loaded(src, loaded.value.0[..])
    ensures loaded.None? ==>
              || TooLong(lines)
              || (IsSourceOf(src, lines, eofLabel) && !src.Accepted())
  {
    hide TooMany, TextOf, TableOf, Duplicate, Loaded, ResolvedText, Source.Accepted, Numbered, Declared;
    var p := new Parser();
    src := Source([], [], map[]);
    var ok, code := p.Parse(lines, eofLabel);
    if !ok {
      return None, src;
    }
    src := Source(p.text, code, p.table);
    TextGrammatical(lines, eofLabel, src.text);
    var parsed := p.text;
    var text := new Statement[|parsed|](i requires 0 <= i < |parsed| => parsed[i]);
    assert text[..] == src.text;
    var hasError := Resolve(src, text, code, p.table);
    if hasError {
      return None, src;
    }
    ResolvedIsLoaded(src, text[..]);
    loaded := Some((text, code));
  }

  lemma TextGrammatical(lines: seq<Line>, eofLabel: string, text: seq<Statement>)
    requires |lines| < 4 * BPF_MAXINSNS && AllGrammatical(lines)
    requires var all := WithEnd(lines, eofLabel); TextOf(all, text, |all| - (if Duplicate(all, |lines|) then 0 else 1))
    ensures |text| <= |lines| + 2
    ensures forall t :: 0 < t < |text| ==> Grammatical(text[t].body)
  {
    hide TextOf, Duplicate, Count;
    var all := WithEnd(lines, eofLabel);
    var n := |all| - (if Duplicate(all, |lines|) then 0 else 1);
    TextLength(all, text, n);
    forall t | 0 < t < |text|
      ensures Grammatical(text[t].body)
    {
      TextAt(all, text, n, t - 1);
    }
  }

  lemma TextLength(lines: seq<Line>, text: seq<Statement>, n: nat)
    requires TextOf(lines, text, n)
    ensures |text| == n + 1
  {
  }

  /** Lines determine their source. */
  lemma SourceUnique(a: Source, b: Source, lines: seq<Line>, eofLabel: string)
    requires |lines| < 4 * BPF_MAXINSNS
    requires IsSourceOf(a, lines, eofLabel) && IsSourceOf(b, lines, eofLabel)
    ensures a == b
  {
    var all := WithEnd(lines, eofLabel);
    TextUnique(all, a.text, b.text, |all| - (if Duplicate(all, |lines|) then 0 else 1));
    TableUnique(all, a.table, b.table);
    CodeUnique(a.text, a.code, b.code);
  }

  lemma TextUnique(lines: seq<Line>, a: seq<Statement>, b: seq<Statement>, n: nat)
    requires TextOf(lines, a, n) && TextOf(lines, b, n) 
    ensures a == b
  {
    hide StatementOf;
    forall t | 0 < t < |a|
      ensures a[t] == b[t]
    {
      TextAt(lines, a, n, t - 1);
      TextAt(lines, b, n, t - 1);
    }
  }

  lemma TableUnique(lines: seq<Line>, a: map<string, u16>, b: map<string, u16>)
    requires TableOf(lines, a, |lines|) && TableOf(lines, b, |lines|)
    ensures a == b
  {
    TableWithin(lines, a, b);
    TableWithin(lines, b, a);
  }

  lemma TableWithin(lines: seq<Line>, a: map<string, u16>, b: map<string, u16>)
    requires TableOf(lines, a, |lines|) && TableOf(lines, b, |lines|)
    ensures forall l :: l in a ==> l in b && a[l] == b[l]
  {
    hide Count;
    forall l | l in a
      ensures l in b && a[l] == b[l]
    {
      assert DeclaredIn(lines, l, a[l], |lines|);
      var t :| 0 <= t < |lines| && FirstDeclares(lines, t, l) && a[l] == 1 + Count(lines, t);
      assert l in b && DeclaredIn(lines, l, b[l], |lines|);
      var u :| 0 <= u < |lines| && FirstDeclares(lines, u, l) && b[l] == 1 + Count(lines, u);
      assert t == u;
    }
  }

  /** The numbers of the lines that are not empty are the pointers. */
  lemma CodeUnique(text: seq<Statement>, a: seq<nat>, b: seq<nat>)
    requires Numbered(text, a) && Numbered(text, b)
    ensures a == b
  {
    CodeWithin(text, a, b);
    CodeWithin(text, b, a);
  }

  lemma CodeWithin(text: seq<Statement>, a: seq<nat>, b: seq<nat>)
    requires Numbered(text, a) && Numbered(text, b)
    ensures |a| <= |b| && forall c :: 0 <= c < |a| ==> a[c] == b[c]
  {
    forall c | 0 < c < |a|
      ensures c < |b| && a[c] == b[c]
    {
      assert CodeAt(text, a, c);
      assert LineAt(text, b, a[c]);
    }
    var last := |a| - 1;
    assert a[last] >= 0 && last < |b|;
  }

  /** A statement of the source that is an error, among them every line with a label that an
      earlier line has, makes the source one that is refused. */
  lemma BadRefused(src: Source, lines: seq<Line>, eofLabel: string, t: nat)
    requires |lines| < 4 * BPF_MAXINSNS && IsSourceOf(src, lines, eofLabel) && t <= |lines|
    requires BodyOf(WithEnd(lines, eofLabel), t).Bad?
    ensures !src.Accepted()
  {
    hide Duplicate, Count, TableOf, Declared;
    var all := WithEnd(lines, eofLabel);
    var n := |all| - (if Duplicate(all, |lines|) then 0 else 1);
    assert t < n;
    TextAt(all, src.text, n, t);
    assert LineAt(src.text, src.code, t + 1);
    var c := src.text[t + 1].codeNr;
    assert src.At(c).Bad?;
    assert !src.Fine(c);
  }

  lemma DuplicateRefused(src: Source, lines: seq<Line>, eofLabel: string, t: nat, u: nat)
    requires |lines| < 4 * BPF_MAXINSNS && IsSourceOf(src, lines, eofLabel) && t < u <= |lines|
    requires var all := WithEnd(lines, eofLabel); all[t].labelDecl == all[u].labelDecl && all[t].labelDecl != ""
    ensures !src.Accepted()
  {
    hide IsSourceOf, Source.Accepted;
    assert BodyOf(WithEnd(lines, eofLabel), u).Bad?;
    BadRefused(src, lines, eofLabel, u);
  }

  /** A program has at most 4096 instructions, and only lines beyond that are too many. */
  lemma SizeIs(src: Source, lines: seq<Line>, eofLabel: string)
    requires |lines| < 4 * BPF_MAXINSNS
    ensures |lines| <= 4096 ==> !TooLong(lines)
    ensures IsSourceOf(src, lines, eofLabel) && src.Accepted() && !TooLong(lines) ==> 0 < src.Len() <= 4096
  {
    hide IsSourceOf, Source.Accepted;
    if IsSourceOf(src, lines, eofLabel) && src.Accepted() && !TooLong(lines) {
      AcceptedSize(src, lines, eofLabel);
    }
  }

  lemma AcceptedSize(src: Source, lines: seq<Line>, eofLabel: string)
    requires |lines| < 4 * BPF_MAXINSNS && IsSourceOf(src, lines, eofLabel) && src.Accepted() && !TooLong(lines)
    ensures 0 < src.Len() <= 4096
  {
    hide Duplicate, Count, TableOf, Declared;
    var all := WithEnd(lines, eofLabel);
    var n := |all| - (if Duplicate(all, |lines|) then 0 else 1);
    var c := src.Len();
    assert CodeAt(src.text, src.code, c);
    var t := src.code[c] - 1;
    TextAt(all, src.text, n, t);
    assert src.Fine(c);
    assert !Duplicate(all, t) && !all[t].body.Empty?;
    CountPrefix(lines, all, t);
    assert !TooMany(lines, t);
  }

  /** assemble: the words of a source, which the kernel accepts as a filter. */
  method AssembleSource(lines: seq<Line>, eofLabel: string) returns (words: Option<seq<Filter>>, ghost src: Source)
    requires |lines| < 4 * BPF_MAXINSNS && AllGrammatical(lines)
    ensures words.Some? ==>
              && IsSourceOf(src, lines, eofLabel) && src.Accepted()
              && words.value == Program(src) && ValidProgram(words.value) && ScratchChecked(words.value)
    ensures words.None? ==>
              || TooLong(lines)
              || (IsSourceOf(src, lines, eofLabel) && !src.Accepted())
    ensures forall s :: IsSourceOf(s, lines, eofLabel) ==>
              words == if !TooLong(lines) && s.Accepted() then Some(Program(s)) else None
    ensures words.Some? ==> 0 < |words.value| <= 4096
  {
    hide TooLong, IsSourceOf, Loaded, Source.Accepted, Program, ValidProgram, ScratchChecked, CanAssembleAll, Words, AllGrammatical;
    var loaded;
    loaded, src := Load(lines, eofLabel);
    forall s | IsSourceOf(s, lines, eofLabel) && IsSourceOf(src, lines, eofLabel)
      ensures s == src
    {
      SourceUnique(s, src, lines, eofLabel);
    }
    if loaded.None? {
      return None, src;
    }
    var (text, code) := loaded.value;
    WordsAreProgram(src, text[..]);
    AcceptedIsValid(src);
    AcceptedIsChecked(src);
    SizeIs(src, lines, eofLabel);
    LoadedIncreasing(src, text[..]);
    var out := Assemble(text, code);
    words := Some(out);
  }

  lemma LoadedIncreasing(src: Source, text: seq<Statement>)
    requires Loaded(src, text)
    ensures |src.code| >= 1 && Increasing(src.code)
  {
  }

  /** The emulator shows the action the kernel would take on the assembled words, whatever the
      scratch memory holds, when no executed shift has a large count in the index register. */
  lemma ShowsTheKernelsAction(src: Source, mem: Mem, arg: EmuArg)
    requires src.Accepted()
    requires SmallShifts(Program(src), 0, State(0, 0, mem), DataOf(arg))
    ensures Result(Program(src), mem, DataOf(arg)).Some?
    ensures Shows(src, arg) == DecodeReturnK(Result(Program(src), mem, DataOf(arg)).value)
  {
    hide Program, RunOn, DecodeReturnK, Source.Accepted, SmallShifts, ValidProgram;
    SameResult(Program(src), 0, State(0, 0, mem), DataOf(arg));
    AcceptedForgetsScratch(Emulated, src, mem, Cleared(), DataOf(arg));
    AcceptedIsValid(src);
    ProgramNotEmpty(src);
    ValidProgramReturns(Program(src), 0, State(0, 0, mem), DataOf(arg));
  }

  lemma ProgramNotEmpty(src: Source)
    requires src.Accepted()
    ensures |Program(src)| > 0
  {
  }
}
