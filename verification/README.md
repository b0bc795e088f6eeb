# Verified model of ceccomp

ceccomp assembles, disassembles and emulates seccomp filters, and recovers classic BPF filters from
the eBPF programs that the kernel makes of them. This project models that logic in Dafny and proves
what the program is for: the recovery keeps the meaning of a filter, the emulator agrees with the
machine, the resolver's check of scratch memory is sound and exact, disassembling and assembling
give a program back, and the label table is a map.

Verify everything with `dafny verify dfyconfig.toml`.

## The parts

- `Word`, `Bpf`, `Machine`: unsigned machine words with the bitwise operators of C, the classic
  machine (A, X, sixteen scratch words, forward jumps), and the emulated machine, which also writes
  a masked shift count back into X. `Arithmetic` says what the operators compute, in numbers and
  bits. `ScratchCheck` is the kernel's check of scratch memory on
  programs, and proves what it is good for. The kernel's other checks are `Bpf.ValidProgram`.
- Recovery from eBPF. `Ebpf` is the eBPF machine (sections 4.1, 4.3 and 5.1 of RFC 9669) with the
  kernel's register AX. `Migration` says what the kernel makes of a classic filter, with arbitrary
  blinding, and proves that it computes the same; `Conversion` makes one of every valid filter, with
  any constants hidden behind any random values. `Recovery` defines the three passes on values, `Folding`, `Relocation` and
  `Soundness` and `RecoveredCheck` prove them right, `Refusals` says what the first pass refuses, and `Bitmap` and `BpfTrans` are the passes as they run, on arrays
  edited in place, proved equal to the definition.
- Assembler side. `Statements`, `Parser` (numbering of lines), `Acceptance` (which programs are to
  be accepted), `Resolver`, `Assembler`, `Emulation` (what a run over lines is), `Simulation`,
  `Scratch`, `Emulator` and `Pipeline`.
- Round trip. `Decoder`, `Scanner`, `Formatter`, `Lexing`, `Grammar`, `Reparsing` and `RoundTrip`:
  decoding, printing, scanning characters, parsing, resolving and assembling. `Vocabulary` says
  which token each word is, `Sentences` what each form of a line is read as, `Prints` what is
  written for a statement, and `Tables` lists the codes of instructions, actions and comparisons.
- Label table. `Chains` and `Verstable`: buckets and metadata arrays with displacement chains;
  `Crowding` is a table in which an eviction fails. The parser and the resolver are modelled with a
  map, and `Labels` proves that the table of a source is that map.
- `CheckProg` and `Render`: the check before rendering and the forward pass over statuses.

Some modelling choices. Words are bounded integers and instruction codes are bit vectors. A
metadatum of the label table is a record of its three bit fields, and `& mask` of a table whose
size is a power of two is `%`. The hash function of the label table is a parameter, so everything
holds for any hash. The load factor 0.9 is the inequality 10 (keys + 1) <= 9 buckets. Allocation
succeeds up to a limit that is a parameter. Names of system calls and architectures come from
functions that are parameters of the parser. An untrusted eBPF buffer has at
least ten zeroed instructions after the program, as src/disasm.c:137-139 provides for input from a
file; a trusted one holds just the program, as src/capture.c:155-159 allocates it, or is padded, too.

## Model

| member | source | states |
|---|---|---|
| Bpf.DecodeEncode | src/asm.c:39-257 | decoding the word of an instruction gives the instruction, for all instructions |
| Bpf.ValidProgramReturns | src/resolver/resolver.c:294-321 | a program with valid instructions and a last return returns a value from every place and state: it strictly advances and never leaves its instructions |
| Arithmetic.ComputeIs | src/emu.c:74-107 | sums, differences and products are those of numbers modulo 2^32, a quotient is rounded down, a right shift divides by a power of two, and the rest is so bit by bit |
| Arithmetic.MeaningIsUnique | src/emu.c:74-107 | no other result is any of these, so they say what each operator computes for all operands |
| Arithmetic.NegIs | src/emu.c:111-113 | a negated number and the number add up to zero modulo 2^32 |
| Arithmetic.CompareIs | src/emu.c:141-163 | comparisons are of unsigned numbers, and a test of bits looks for a bit that both have |
| Arithmetic.BitIs | src/emu.c:91-107 | a bit is the parity of the quotient by its power of two |
| Tables.OtherCodes | include/x-macro/valid_codes.h:7-39 | the instructions of the codes of loads, stores, returns, moves, negation and JA |
| Tables.ArithmeticCodes | include/x-macro/valid_codes.h:12-29 | the operators of the arithmetic codes by a constant |
| Tables.RegisterCodes | include/x-macro/valid_codes.h:12-29 | and by X |
| Tables.JumpCodes | include/x-macro/valid_codes.h:40-47 | the comparisons of the codes of jumps, by a constant and by X |
| Tables.NoOtherCodes | src/utils/valid_insns.c:35-40 | a word with a code beside these is no instruction |
| Tables.RefusedInstr | src/decoder/check_prog.c:92-164 | an instruction is not valid if and only if it gets stuck, jumps out of the program, divides by a constant zero or shifts by a constant of 32 or more |
| Tables.FatalIsUndecodable | src/decoder/check_prog.c:99-110 | what ends the check at once is exactly what cannot be decoded |
| Migration.MigrationComputes | src/utils/bpf_trans.c:139-207 | any migration of a valid filter, blinded or not, returns what the filter returns for every input, from any registers on entry |
| Migration.RunBlinding | src/utils/bpf_trans.c:203-215 | the two instructions before a blinded one leave the constant in AX whatever the random value is |
| Migration.RunGuard | src/utils/bpf_trans.c:138-173 | the four instructions that guard and do a division by X return 0 when X is 0 and divide otherwise |
| Conversion.ConvertedIsMigration | src/utils/bpf_trans.c:18-27 | every valid filter has a migration for each choice of constants to hide and each random value, so the statements about migrations are about something, blinded or not |
| Conversion.ConvertedComputes | src/utils/bpf_trans.c:18-27 | the eBPF program made of a valid filter, however its constants are hidden, returns what the filter returns |
| BpfTrans.SetBits | src/utils/bpf_trans.c:268-284 | adds exactly the indices [from, from + count) to the set the word array stands for, also across a word boundary |
| BpfTrans.CountBits | src/utils/bpf_trans.c:287-307 | the number of members of the set in [from, to) |
| Bitmap.SetWord | src/utils/bpf_trans.c:274-283 | or-ing a mask into one word adds exactly the span of the mask |
| Bitmap.CountMasked | src/utils/bpf_trans.c:296-303 | the population count under a mask is the number of members in its span |
| BpfTrans.JumpInsn | src/utils/bpf_trans.c:85-135 | the fold of one jump in place is the definition's: two arms for a jump and an untargeted JA, one arm otherwise, failure on other patterns |
| BpfTrans.DivideX | src/utils/bpf_trans.c:138-173 | the guard of a division is folded exactly when all its instructions match, blinded or not |
| BpfTrans.AluInsn | src/utils/bpf_trans.c:197-263 | arithmetic and moves are folded and unblinded in place as the definition says |
| BpfTrans.FirstPass | src/utils/bpf_trans.c:392-433 | the first loop computes the first pass on buffers, flags and holes, and fails when it does |
| BpfTrans.SecondPass | src/utils/bpf_trans.c:436-497 | the backward loop, which reads cached words of a bitmap it edits, computes the second pass |
| BpfTrans.ThirdPass | src/utils/bpf_trans.c:500-519 | the live instructions in order, moved to the front |
| BpfTrans.Ebpf2Cbpf | src/utils/bpf_trans.c:309-520 | the whole recovery: the program of the definition, or -1 when an assertion fails; for every padded untrusted input, and for every trusted input whose jumps stay inside that is padded or, in a buffer of exact size, ends as what the kernel makes does |
| BpfTrans.MigrationCloses | src/utils/bpf_trans.c:85-263 | what the kernel makes ends with EXIT and no load of AX before it, so nothing behind the program is ever read |
| BpfTrans.RecoverMigration | src/capture.c:119-127 | on what the kernel made of any valid filter, in a buffer of just its size or with padding, the recovery succeeds; the result returns the same as the eBPF and as the filter for every input, passes the kernel's checks of instructions, passes its check of scratch memory when the filter does, and is no longer than the filter |
| Folding.FirstCode | src/utils/bpf_trans.c:96-103 | only RET A and JA begin with EXIT and JA, which is what makes folding the following instruction unambiguous |
| Folding.FoldPassRight | src/utils/bpf_trans.c:392-433 | after the first pass every head group is one right classic instruction and every merged group, which no jump leads to, is a hole |
| Refusals.GuardExactly | src/utils/bpf_trans.c:138-173 | MOV X X is taken for a division if and only if the whole guard is behind it, by its codes and registers |
| Refusals.JumpRefused | src/utils/bpf_trans.c:120-137 | a jump of a kind that the kernel does not make of a classic one is refused unless it is followed by a JA that nothing jumps to |
| Refusals.MoveRefused | src/utils/bpf_trans.c:229-257 | a move that is none between A and X, of a constant to A, X or the register beside them, or of X to itself is refused |
| Refusals.JumpClassIs | src/utils/bpf_trans.c:370-372 | which jumps of an untrusted program are checked |
| Refusals.CountIsSize | src/utils/bpf_trans.c:287-307 | counting holes is counting the members of a set |
| Tables.EbpfCodes | src/utils/bpf_trans.c:30-36 | the codes that only eBPF has, and its registers |
| Tables.WideningIs | src/utils/bpf_trans.c:172-179 | a constant repeats its top bit in 64 bits, which changes just those that a comparison takes from a register |
| Relocation.RelocatesTwoArms | src/utils/bpf_trans.c:456-480 | the true arm always fits in 8 bits; the folded JA is split out again exactly when its arm does not, and both arms then count the live slots up to their targets |
| Relocation.RelocatePassRight | src/utils/bpf_trans.c:436-497 | after the second pass every arm at a live slot is the number of live slots up to the eBPF target |
| Soundness.RecoveredRun | src/utils/bpf_trans.c:309-520 | from every live group, the compressed program runs as the classic program does |
| Soundness.RecoveryPreservesMeaning | src/utils/bpf_trans.c:309-520 | the recovered program returns what the original filter returns |
| Soundness.RecoveryMatchesEbpf | src/utils/bpf_trans.c:309-520 | the recovered program returns what the eBPF program returns from any registers on entry |
| Soundness.RecoveryIsValid | src/utils/bpf_trans.c:309-520 | the recovered program passes the kernel's checks of instructions and is no longer than the original |
| RecoveredCheck.RecoveryIsChecked | src/utils/bpf_trans.c:309-520 | it passes the kernel's check of scratch memory when the original does |
| RecoveredCheck.CertainKept | src/utils/bpf_trans.c:85-135 | what is certain to be written at a live group is so in the recovered program, over merged groups too |
| Soundness.MigrationChecks | src/utils/bpf_trans.c:368-383 | a migration passes the check of jump destinations and of the prologue |
| Machine.SameStep | src/emu.c:91-98 | one instruction has the same effect on the kernel's and the emulated machine if and only if it is not a shift by X with X at least 32 |
| Machine.LockstepExactly | src/emu.c:91-98 | both machines go through the same states on a run if and only if no executed shift by X finds 32 or more in it |
| Machine.LargeShiftDiffers | src/emu.c:91-98 | a valid program on which the two return different values |
| Machine.NoShiftsByX | src/emu.c:91-98 | a program without shifts by X never depends on the difference |
| Parser.Parser.Parse | src/lexical/parser.c:456-481 | lines and statements are numbered consistently, repeated labels are errors, labels map to the statement at or after them; gives up exactly when a statement is beyond the limit |
| Parser.Parser.ParseLine | src/lexical/parser.c:424-447 | one line: its numbers, its label in the table, and the limit of 4096 statements |
| Parser.Parser.CodePointers | src/lexical/parser.c:470-480 | the pointers lead to exactly the lines that are not empty, in order |
| Parser.TableDeclared | src/lexical/parser.c:406-422 | every label of the table is declared on a line numbered with its statement, or at the end of the source |
| Resolver.Resolver.Run | src/resolver/resolver.c:294-321 | reports an error if and only if the program is not to be accepted, and otherwise fills in exactly the distances of arms |
| Resolver.Resolve | src/resolver/resolver.c:294-321 | the same, with a program without statements given up |
| Resolver.Resolver.ResolveStatement | src/resolver/resolver.c:268-292 | one statement: an error exactly when it is not fine, and the words written on all ways to its successors |
| Resolver.Resolver.JumpLine | src/resolver/resolver.c:216-252 | a conditional jump: an error exactly when an arm is missing, backward, too far or outside; otherwise masks of both arms are met with the words known here |
| Resolver.Resolver.JaLine | src/resolver/resolver.c:195-215 | the same for an unconditional jump |
| Resolver.Resolver.AssignA | src/resolver/resolver.c:88-131 | an error exactly when the assignment has no valid instruction or loads a scratch word not certain to be written |
| Resolver.Resolver.AssignX | src/resolver/resolver.c:133-157 | the same for assignments to X |
| Resolver.Resolver.AssignMem | src/resolver/resolver.c:159-175 | a store is valid and marks its word, or is an error |
| Resolver.JumpKeeps | src/resolver/resolver.c:212-251 | after a jump the masks and the fall-through state again describe the meet over all ways |
| Resolver.FallsAndMeets | src/resolver/resolver.c:307-312 | what falls through met with what jumps bring is exactly what is written on every way |
| Assembler.AssemblesInstr | src/asm.c:39-257 | the word assembled from every statement that means an instruction is that instruction, with unused fields zero, through the exchange of arms |
| Assembler.AsmStatement | src/asm.c:192-257 | the word, with the arms of the statement exchanged in place when the comparison is reversed |
| Assembler.Assemble | src/asm.c:431-445 | the words of all statements in order |
| Assembler.OrIsSum | src/asm.c:52-54 | or-ing data under an action that is a multiple of a power of two adds them |
| Simulation.EncodableInstr | src/resolver/resolver.c:88-266 | a statement that the resolver lets pass stands for an instruction that the kernel's checks accept |
| Simulation.AcceptedIsValid | src/resolver/resolver.c:294-321 | every program that the resolver accepts passes the kernel's checks of instructions and its last one returns |
| Scratch.ReadsWrittenIsChecked | src/resolver/resolver.c:294-321 | what the resolver demands of scratch reads in a source is exactly the kernel's check of its words |
| Scratch.AcceptedIsChecked | src/resolver/resolver.c:294-321 | every program that the resolver accepts passes the kernel's check of scratch memory |
| Simulation.WordsAreProgram | src/asm.c:431-445 | the assembler's words for a resolved text, emulated before or not, are the program |
| Simulation.FindsLabel | src/emu.c:223-247 | every jump finds its label: the line is after the jump and at or before the target statement, with only empty lines between |
| Simulation.EmptyBefore | src/emu.c:223-247 | the lines between the line found and the statement are empty |
| Simulation.TakesArm | src/emu.c:122-169 | comparing as written and negating takes the arm that the machine takes after arms are exchanged |
| Simulation.AssignSimulates | src/emu.c:55-118 | an assignment does to registers and memory what its instruction does, and stops exactly on division by zero |
| Simulation.StepSimulates | src/emu.c:284-330 | every executed line does what the instruction of its statement does, and goes on before the statement of the next instruction |
| Simulation.RunSimulates | src/emu.c:284-330 | from any line the emulator ends, and shows the action of the value that the machine returns on the assembled words |
| Simulation.ActionShown | src/decoder/decoder.c:186-225 | encoding an action with data and decoding the value shows the same action and data |
| Tables.ActionCodes | src/asm.c:28-37 | the values that actions are encoded as |
| Tables.ReturnsAre | src/decoder/decoder.c:186-225 | the low 16 bits of a returned value are data for three actions and dropped for the others |
| ScratchCheck.NeverReadsUnwritten | src/resolver/resolver.c:294-321 | in a program that passes the checks, no run from any instruction reads a scratch word that is not written on every way there or by the run itself |
| ScratchCheck.CertainExactly | src/resolver/resolver.c:307-312 | a word is certain to be written where it is written on all ways from the first instruction, and only there |
| ScratchCheck.DeadCode | src/resolver/resolver.c:307-312 | a load behind a return is checked as if the return went on, and one that is jumped over is not checked |
| Scratch.AcceptedReadsOnlyWritten | src/resolver/resolver.c:294-321 | no run of an accepted program, on either machine, reads a scratch word it has not written |
| ScratchCheck.LeftoversDoNotMatter | src/emu.c:332-338 | what scratch memory holds before a run never changes the value returned by a checked program |
| Emulator.Emulator.AssignLine | src/emu.c:55-118 | computes the new registers and memory by that arithmetic, or stops on division by zero with them unchanged |
| Emulator.Emulator.JumpLine | src/emu.c:122-169 | the label that the comparison takes |
| Emulator.Emulator.CodeNrToTextNr | src/emu.c:223-247 | the backward search finds the line of the definition |
| Emulator.Emulator.ReturnLine | src/emu.c:176-221 | the action is noted in the statement and nothing else changes |
| Emulator.LeftoverDataHidden | src/decoder/decoder.c:186-225 | data that an earlier run left in a statement is never shown |
| Emulator.Emulator.Run | src/emu.c:284-330 | the loop over lines ends at the line and with the action of the definition, and leaves a text that can be emulated again |
| Emulator.Emulator.EmulateV | src/emu.c:363-400 | shows the action of the machine on the data of the system call from cleared memory, whatever earlier emulations left behind |
| Emulator.Emulator.Probe | src/probe.c:77-83 | any sequence of emulations of one text shows what fresh runs would show |
| Emulator.DataIs | src/emu.c:339-360 | the data that a program sees: the number, the architecture, and the address and the arguments as two halves each, low half first |
| Emulator.OperandsAre | src/emu.c:37-50 | what every operand of the language stands for in an emulation of one system call |
| Emulator.Emulator.InitAttr | src/emu.c:332-361 | the registers are cleared and the fields hold the same data; scratch memory is left as it is |
| Tables.ComparatorsAre | src/emu.c:141-163 | the comparators of the language, on unsigned numbers |
| Pipeline.SourceUnique | src/lexical/parser.c:456-481 | lines determine the text, the pointers and the labels that the parser hands over |
| Pipeline.BadRefused | src/resolver/resolver.c:273-277 | a source with an error line is refused |
| Pipeline.DuplicateRefused | src/lexical/parser.c:415-416 | a source that declares a label twice is refused |
| Pipeline.SizeIs | src/lexical/parser.c:380-381 | an accepted program has from 1 to 4096 instructions, and no source of at most 4096 lines is too long |
| Pipeline.AssembleSource | src/asm.c:415-451 | the result is the program of the source, which passes the kernel's checks, that of scratch memory too, exactly when no statement is beyond the limit and the source is to be accepted; nothing otherwise |
| Pipeline.Load | src/emu.c:402-418 | parsing and resolving, with the reason when there is no program |
| Pipeline.ShowsTheKernelsAction | src/emu.c:363-400 | the action shown is the one the kernel takes on the words, when no executed shift has a large count in X |
| Decoder.EncodesBack | src/decoder/decoder.c:41-284 | encoding what a statement keeps of a word gives the word if and only if it is exact: zero in unused fields, no bits under an action without data, jumps within 16 bits |
| Decoder.DecodeFilter | src/decoder/decoder.c:258-284 | the statement means the word's instruction; assembling it gives the word back if and only if the word is exact; the arm left out is the false one, and a jump is turned around only when its true arm is empty |
| Decoder.AssemblesBack | src/decoder/decoder.c:41-284 | the same for any statement that means the word |
| Decoder.Condition | src/decoder/decoder.c:133-152 | the comparator and what is left of the negation together negate exactly when asked, and only a test of bits stays negated |
| Decoder.JumpLine | src/decoder/decoder.c:154-184 | a conditional jump is turned around exactly when only its false arm leads elsewhere, and keeps its meaning |
| Decoder.DecodeFilters | src/decoder/decoder.c:286-307 | all statements of a program, numbered from one |
| Tables.OffsetsAre | src/decoder/decoder.c:21-38 | the offsets of the attributes in the data |
| Lexing.HexScans | src/lexical/scanner.c:255-277 | a printed hexadecimal number of any width is scanned as its value |
| Lexing.DecScans | src/lexical/scanner.c:255-277 | a printed decimal number is scanned as its value, also 0 |
| Lexing.SpellingScans | src/lexical/scanner.c:77-98 | every word, operator and label is scanned as itself, not as a shorter or other one |
| Vocabulary.ArchitectureScans | src/lexical/scanner.c:149-161 | every name of an architecture that does not go on is scanned as that architecture, though some begin with others |
| Vocabulary.NameScans | src/lexical/scanner.c:245-255 | a word that is no keyword, architecture or action is a name, and with a colon the label of a line |
| Vocabulary.HexNumber | src/lexical/scanner.c:257-278 | hexadecimal digits of either case, after 0x or 0X, are scanned as their value, or as too large from 2^32 |
| Vocabulary.OctalNumber | src/lexical/scanner.c:257-278 | a number that begins with 0 is octal |
| Vocabulary.DecimalNumber | src/lexical/scanner.c:257-278 | any other is decimal |
| Vocabulary.DigitsAre | src/lexical/scanner.c:261 | the digits, in either case |
| Vocabulary.PlacesAre | src/lexical/scanner.c:261 | the value of digits by their places |
| Vocabulary.KeywordsAre | src/lexical/token.c:26-27 | the words that begin and join statements |
| Vocabulary.ActionsAre | src/lexical/token.c:22-24 | the actions |
| Vocabulary.AttributesAre | src/lexical/token.c:29-33 | the attributes of a system call |
| Vocabulary.AssignmentsAre | src/lexical/token.c:38-41 | the operators of assignments |
| Vocabulary.ComparisonsAre | src/lexical/token.c:43-45 | the operators of comparisons |
| Vocabulary.SignsAre | src/lexical/token.c:27-46 | the registers and the other signs |
| Vocabulary.BracketsAre | src/lexical/token.c:37-38 | the brackets |
| Vocabulary.BlanksAre | src/lexical/scanner.c:127-147 | blanks are passed over and a newline ends the line |
| Lexing.PiecesScan | src/lexical/scanner.c:120-288 | scanning a printed line gives the tokens it was printed from |
| Scanner.Scanner.ScanToken | src/lexical/scanner.c:120-288 | the token that the rest of the line begins with, and the position after it |
| Scanner.ScanTokens | src/lexical/scanner.c:120-288 | all tokens of any line, and the count of unknown characters after it |
| Scanner.ScanGivesUp | src/lexical/scanner.c:281-288 | up to six unknown characters of a source are tokens like others, and a line is scanned whole; at the seventh, the tokens up to it are followed by the end of the source |
| Grammar.LineParser.Parse | src/lexical/parser.c:406-447 | the cursor reads a line as the grammar says |
| Grammar.LineParser.ParseJump | src/lexical/parser.c:251-308 | conditions, labels and the optional other arm as the grammar says |
| Grammar.LineParser.ParseAssign | src/lexical/parser.c:310-371 | assignments as the grammar says |
| Sentences.CompareCall | src/lexical/parser.c:209-216 | a comparison with a name is one with the number of that system call, and an error line when there is none |
| Sentences.CompareArch | src/lexical/parser.c:219-230 | a comparison with the name of an architecture is one with its number, or an error line |
| Sentences.CompareDotted | src/lexical/parser.c:233-248 | a comparison with a system call of a named architecture is one with its number there, or an error line |
| Sentences.CompareX | src/lexical/parser.c:195-199 | a comparison with X |
| Sentences.CompareNumber | src/lexical/parser.c:203-207 | a comparison with a number |
| Sentences.NegatedWithElse | src/lexical/parser.c:251-308 | a negated comparison with both arms |
| Sentences.GotoSentence | src/lexical/parser.c:273-281 | a jump without condition |
| Sentences.ReturnSentence | src/lexical/parser.c:139-165 | returns of A, of a number and of an action |
| Sentences.ReturnDataSentence | src/lexical/parser.c:147-151 | data in parentheses, for the three actions that have it; an error line for the others |
| Sentences.AssignSentence | src/lexical/parser.c:310-371 | an assignment of any right side to any left side by any operator |
| Sentences.EmptySentence | src/lexical/parser.c:376-377 | an empty line and a comment |
| Sentences.LabelledSentence | src/lexical/parser.c:406-422 | a label, and up to five numbers behind it that do not matter |
| Sentences.NothingBehind | src/lexical/parser.c:398-403 | anything else behind a statement makes an error line |
| Formatter.Printer.PrintStatement | src/decoder/formatter.c:229-253 | appends the pieces of the statement |
| Prints.NumberTexts | src/decoder/formatter.c:14-54 | numbers in hexadecimal with their prefix and zeros up to their width, or in decimal |
| Prints.DigitsText | src/decoder/formatter.c:14-21 | the digits of a number, from its last one |
| Prints.RegisterTexts | src/decoder/formatter.c:14-27 | the registers and constants |
| Prints.AttributeTexts | src/decoder/formatter.c:23-27 | the attributes |
| Prints.IndexedTexts | src/decoder/formatter.c:35-47 | scratch words with a hexadecimal number in brackets, arguments with a decimal one |
| Prints.OpTexts | src/decoder/formatter.c:114-121 | the operators of assignments and the blanks around them |
| Prints.AssignText | src/decoder/formatter.c:106-124 | an assignment, with the note behind the length of the data |
| Prints.GotoText | src/decoder/formatter.c:135-141 | an arm without condition |
| Prints.ConditionText | src/decoder/formatter.c:157-165 | a condition |
| Prints.JumpText | src/decoder/formatter.c:143-180 | a jump with its negation and with the other arm when there is one |
| Prints.ReturnText | src/decoder/formatter.c:182-188 | a return, with data only for the three actions that have it |
| Prints.LineText | src/disasm.c:177-184 | a line: the label of its number, the four fields of the word, and the statement |
| Reparsing.ExpressionParses | src/lexical/parser.c:373-404 | the tokens of any writable statement are read as that statement with its arms named |
| Reparsing.LineReadBack | src/decoder/formatter.c:229-253 | a printed line, scanned and parsed, is the statement under the label of its number |
| Reparsing.LabelsDiffer | src/decoder/formatter.c:126-133 | default labels of different statements differ |
| RoundTrip.AssemblesToProgram | src/disasm.c:150-191 | when the resolver accepts the text of any program, assembling gives the words of its statements |
| RoundTrip.CanonicalExactly | src/decoder/decoder.c:41-284 | these words are the program if and only if all words of the program are exact |
| RoundTrip.RoundTripExactly | src/disasm.c:150-191 | the text of a program is accepted if and only if the words of its statements pass the kernel's checks, that of scratch memory too; it then assembles to them |
| RoundTrip.Reassemble | src/disasm.c:150-191 | the whole way from words to text to words, for every program that can be decoded: the words of its statements when they pass the kernel's checks, an error otherwise; the program itself if and only if it passes them and its words are exact |
| RoundTrip.UncheckedProgram | src/resolver/resolver.c:88-131 | an exact program with valid instructions that is refused, since it reads a scratch word first |
| Chains.PlaceHome | include/lib/verstable-2.2.1.h:1281-1286 | a new chain of one key keeps all chains |
| Chains.LinkAfter | include/lib/verstable-2.2.1.h:1355-1362 | linking a key in by displacement keeps all chains |
| Chains.Detach | include/lib/verstable-2.2.1.h:1203-1206 | cutting a key out keeps the chains of all other keys |
| Chains.Rekey | include/lib/verstable-2.2.1.h:1664-1671 | putting another key of the same home in place keeps all chains |
| Chains.ProbesDiffer | include/lib/verstable-2.2.1.h:473-479 | displacements below a power-of-two number of buckets probe different buckets |
| Chains.ProbesAll | include/lib/verstable-2.2.1.h:473-479 | and every bucket is probed |
| Chains.VacancyFound | include/lib/verstable-2.2.1.h:1132-1153 | with a vacant bucket and at most 1024 buckets the search for a place succeeds |
| Chains.HasVacancy | include/lib/verstable-2.2.1.h:1269-1276 | fewer keys than buckets leave a bucket vacant |
| Verstable.Table.FindFirstEmpty | include/lib/verstable-2.2.1.h:1132-1153 | a vacant bucket at the displacement returned, or none at any displacement |
| Verstable.Table.FindInsertLocation | include/lib/verstable-2.2.1.h:1159-1177 | the key of the chain between which and its successor the displacement lies |
| Verstable.Table.Get | include/lib/verstable-2.2.1.h:1549-1585 | finds exactly the keys of the map, with their values |
| Verstable.Table.Evict | include/lib/verstable-2.2.1.h:1188-1226 | it succeeds if and only if some displacement below the limit leads from the home of the key to a vacant bucket; then the key is moved and all chains are kept; otherwise, in a table with a vacant bucket only above 1024 buckets, it is cut out of its chain and stays in its bucket |
| Crowding.EvictionCanFail | include/lib/verstable-2.2.1.h:1203-1212 | a well linked table, not half full, in which the eviction fails |
| Verstable.NeverReached | include/lib/verstable-2.2.1.h:1203-1212 | after a failed eviction no search along links comes to the key that was cut out |
| Verstable.Table.InsertRaw | include/lib/verstable-2.2.1.h:1251-1378 | adds, replaces or keeps the entry as asked; on failure the entries are as before |
| Verstable.Table.Rehash | include/lib/verstable-2.2.1.h:1391-1469 | a rehash that succeeds restores all chains and keeps the map, even after a failed eviction; with room for the keys in at most 1024 buckets it succeeds at the first count tried |
| Verstable.Table.Reinsert | include/lib/verstable-2.2.1.h:1424-1440 | fewer keys than before if one finds no place, and the same map otherwise |
| Verstable.Table.Insert | include/lib/verstable-2.2.1.h:1478-1510 | the map with the entry, unless memory is refused |
| Verstable.Table.GetOrInsert | include/lib/verstable-2.2.1.h:1514-1546 | the map with the entry if the key was new; with at most 921 keys and 1024 buckets allowed it never fails, whatever the hashes |
| Verstable.Table.EraseAt | include/lib/verstable-2.2.1.h:1596-1685 | the map without the key, with all chains kept |
| Verstable.Table.Erase | include/lib/verstable-2.2.1.h:1689-1697 | true exactly when the key was there |
| Verstable.LabelTable.InsertKey | src/utils/hash.c:38-48 | 0 for a new label, 1 for one that was there, -1 without memory, when the buckets still hold the same map; never -1 for up to 921 labels |
| Verstable.LabelTable.FindKey | src/utils/hash.c:50-57 | the number of the label, or all ones |
| Labels.Insert | src/lexical/parser.c:406-422 | inserting the labels of all lines gives the map of labels that the parser is modelled with, unless memory is refused, which takes more than 921 different labels |
| Labels.OfSource | src/lexical/parser.c:406-481 | the label table of any source is the table of labels of the source |
| Labels.FindArm | src/resolver/resolver.c:216-240 | searching the label table gives the statement that the resolver is modelled to find |
| CheckProg.CheckProg | src/decoder/check_prog.c:166-199 | a program is found clean if and only if it passes the kernel's checks of instructions and every load of a scratch word comes after a store to it or after any jump; it is fatal if and only if some instruction cannot be decoded |
| CheckProg.NoFalseAlarm | src/decoder/check_prog.c:128-134 | a program that passes the kernel's check of scratch memory is never reported for its loads |
| CheckProg.OverlooksRead | src/decoder/check_prog.c:173-180 | a program found clean although it fails that check: the masks are never met |
| CheckProg.Checker.CheckFilter | src/decoder/check_prog.c:92-164 | reports exactly an instruction that is not valid where it stands or loads a word that is not noted as written, fatally if it cannot be decoded; and which words are noted after it |
| Render.Renderer.SetCtx | src/resolver/render.c:40-67 | every status of the one context merged into the other as set_stat merges, and nothing else changed |
| Render.Renderer.Render | src/resolver/render.c:205-221 | every context is the merge of exactly the contexts that flow into it, in the order of the statements; it takes in all of them, and names are chosen by them |
| Render.MergeAbove | src/resolver/render.c:40-49 | a merge stands for both of what is merged, and merging the same again changes nothing |
| Render.FlowingNext | src/resolver/render.c:179-203 | rendering one more statement keeps that |
| Render.RunCovered | src/resolver/render.c:69-107 | on any run a copy of the system call number has status SYSNR or MIXED, a copy of the architecture ARCH or MIXED, any other assigned value MIXED, and copies have the attribute's value |
| Render.CoveredNames | src/resolver/render.c:109-177 | wherever a run compares A, the status that names are chosen by allows for where A comes from |
| Render.StatusIsPrecise | src/resolver/render.c:69-107 | where on all ways to a statement a register or scratch word holds a value of the same origin, its status is that of the origin: SYSNR for the system call number, ARCH for the architecture, MIXED for anything else |
| Render.NamesArePrecise | src/resolver/render.c:109-177 | so a comparison of what is the system call number on all ways is taken for one, and the same with the architecture |
| Render.RenderTrusted | src/disasm.c:150-171 | decoding and rendering any program that passes the kernel's checks of instructions, as what comes from the kernel does: its contexts allow for every run; where A is taken for the system call number or the architecture it is that or was never assigned, and where it is that on all ways it is taken for it |
| Render.RenderProgram | src/disasm.c:150-171 | with the check before it: the same for every program found clean |

## Left out

- The emulator's write-back of a masked shift count (src/emu.c:92 and 96) differs from the kernel's machine; Machine states exactly when it shows.
- check_prog's report of reads of scratch memory is no sound analysis, since its loop never meets the masks (src/decoder/check_prog.c:173-180); CheckProg states exactly what it reports and a read that it overlooks.
- The architecture that render tracks beside the statuses, and the substitution of names, which needs libseccomp.
- libseccomp's tables of system calls and architectures: the parser takes them as functions.
- Errors by setjmp and exit are results; messages, warnings, dumps to files and translations are not modelled.
- The emulator's printing of lines, skipped lines and comments; only the action shown in quiet mode is.
- The scanner's reading of the source into lines, colour codes and line ends.
- A line with an oversized number after its label that comes after the 4096th statement is an error line in the source and ends the parse here; the program is refused either way.
- Hexadecimal, raw and C-macro output of the assembler, and other byte orders.
- CPU-specific multiplication and the quality of the hash functions in a5hash and wyhash.
- Verstable.Table.Rehash: doubling ends at the allocator's limit; without one the source could go on doubling.
- Verstable.LabelTable.InsertKey: after memory is refused the table can hold a key that no search finds. The source ignores the -1 (src/lexical/parser.c:415) and goes on with that table; the model does not say what becomes of further labels then.
- Iteration over the label table, cloning, shrinking and reserving, which ceccomp does not use.
- BpfTrans.Ebpf2Cbpf: trusted input whose jumps leave the program, which the source does not check and would write flags outside its buffer for, is excluded; a trusted buffer without padding that is nothing the kernel makes, whose end the source would read over, is excluded; allocation of the bitmap and flags succeeds; the dump of unexpected input is not modelled.
- Tracing, capturing filters with eBPF programs of its own, procfs and argument parsing.
