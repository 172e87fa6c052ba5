# localbolt text-processing core, modelled in Dafny

localbolt is a terminal "compiler explorer". It compiles C++ or Rust source to assembly and shows the result. It annotates each instruction with llvm-mca cycle counts, gives help on the mnemonic under the cursor, and shows the source line the assembly came from.

This project models the deterministic core of that pipeline. Every part takes strings that have already been read.

- **Lexer**: the assembly line filter, `clean_assembly`.
- **PerfParser**: the llvm-mca "Instruction Info" parser.
  - It is one forward pass over the lines.
  - Three loop variables and a statistics map change as it goes.
  - It reads two row shapes, bracketed and tabular.
  - A `float()` failure is an error result.
- **Diagnostics**: the GCC/Clang diagnostic extractor. It models the greedy `^.*:(\d+):(\d+):\s+(error|warning):\s+(.*)$` pattern one line at a time.
- **RustDemangle**: Rust symbol simplification. It deletes `::h<16 hex>` hashes, then makes six path shortenings.
- **RustLexer**: the Rust noise-line and runtime-symbol classifiers.
- **RustDriver**: two parts of the Rust compiler driver.
  - How `compile` builds the rustc command, including flag translation.
  - The sanitiser that prepares llvm-mca input.
- **Analyzer**: how `get_flags_from_db` selects an entry and filters its flags.
- **Lang**: language routing on the path suffix, following `pathlib` suffix rules.
- **Highlighter**: the mnemonic vocabulary `INSTRUCTIONS` and `build_gutter`.
- **AsmHelp**: the instruction help table, as data.
- **InstructionHelp**: how the help panel extracts the mnemonic and makes its two passes over the table.
- **SourcePeek**: the source peek panel. It does a backward search over a sparse line map and renders the target line with one line of context.
- **AsmApp**: the stand-alone assembly viewer's cursor, severity classes and row layout.
- **Widgets**: the status bar.
- **State**: the application state record.

Two supporting modules are shared by the others.

- `Wrappers`: `Option` and `Result`.
- `TextUtil`: Python's `strip`, `lstrip`, `rstrip`, `in`, `join`, `split`, `splitlines`, `upper`, `lower`, `int` and `str`, on ASCII text.

Loops in the source are methods with loop invariants, each proved equal to a specification function. State that the source updates in place lives in classes:

- `AsmViewer`
- `SourcePeekPanel`
- `StatusBar`
- `LocalBoltState`

Each regular expression is written out as predicates and functions. Each one models the leftmost match that Python's `re` module finds.

## Model

| member | source | states |
|---|---|---|
| Lexer.CleanAssembly | src/localbolt/parsing/lexer.py:22-44 | the filtered text is the kept lines (`Clean`) joined by `\n` |
| Lexer.AnyMatchIff | src/localbolt/parsing/lexer.py:35-39 | the pattern loop that breaks at its first hit reports noise exactly when some pattern of the list matches |
| Lexer.CleanSound | src/localbolt/parsing/lexer.py:29-44 | every output line is an input line that is non-blank and matches no noise pattern |
| Lexer.CleanComplete | src/localbolt/parsing/lexer.py:35-42 | every non-blank input line that matches no noise pattern survives |
| Lexer.CleanAppend | src/localbolt/parsing/lexer.py:29-44 | cleaning distributes over concatenation, so survivors keep their input order |
| Lexer.CleanSingle | src/localbolt/parsing/lexer.py:41-42 | a kept line is copied unmodified |
| Lexer.NoBlankOutput | src/localbolt/parsing/lexer.py:31-32 | no output line is empty or whitespace-only |
| Lexer.KeptLinesHaveNoNoisePrefix | src/localbolt/parsing/lexer.py:8-39 | after leading whitespace, no output line starts with `.cfi_`, `.LFB`/`.LFE` and a digit, `.file`, `.text`, `.p2align`, `.type`, `.size`, `.globl`, `.section` or `endbr64` |
| Lexer.BlankInputYieldsEmpty | src/localbolt/parsing/lexer.py:31-44 | input made only of blank lines yields the empty string |
| Lexer.CleanIdempotent | src/localbolt/parsing/lexer.py:29-44 | cleaning the cleaned lines again changes nothing |
| Lexer.CleanTextIdempotent | src/localbolt/parsing/lexer.py:29-44 | splitting the cleaned text into lines and cleaning again gives the same text |
| Lexer.PrefixIsNoise | src/localbolt/parsing/lexer.py:8-20 | a line that starts with one of the plain noise prefixes is noise |
| Lexer.SectionDirectiveIsNoise | src/localbolt/parsing/lexer.py:18 | `.section .debug_info` is noise |
| Lexer.DataDirectiveKept | src/localbolt/parsing/lexer.py:35-42 | `.long 42` is kept |
| Lexer.NoSectionTracking | src/localbolt/parsing/lexer.py:18-42 | the filter does not track sections: after `.section .debug_info`, `.long 42` is kept and only the `.section` line goes |
| PerfParser.Numeral | src/localbolt/parsing/perf_parser.py:20 | reads the maximal `[\d.]` run at the head of the text; the run is non-empty and is followed by nothing or by a character outside the class |
| PerfParser.MatchBracketed | src/localbolt/parsing/perf_parser.py:20 | a match of the bracketed pattern has digit-run index and latency and `[\d.]` numerals for uops and throughput, after optional indentation and `[` |
| PerfParser.MatchTabular | src/localbolt/parsing/perf_parser.py:25 | a match of the tabular pattern has digit-run uops and latency and a `[\d.]` throughput numeral |
| PerfParser.MatchBracketedRoundTrip | src/localbolt/parsing/perf_parser.py:20 | the bracketed pattern reads back every field of a printed row `[i]: {lat, uops, tput` |
| PerfParser.MatchTabularRoundTrip | src/localbolt/parsing/perf_parser.py:25 | the tabular pattern reads back every field of an indented row `uops lat tput`, whatever whitespace separates the columns |
| PerfParser.StoreBracketed | src/localbolt/parsing/perf_parser.py:47-54 | a bracketed row stores its latency under its own index, overwriting any earlier entry; it changes nothing else; it fails when `float()` rejects the uops or throughput numeral, the one failure modelled (see "## Left out") |
| PerfParser.StoreTabular | src/localbolt/parsing/perf_parser.py:57-65 | a tabular row is stored under the current ordinal, which advances by one; it fails when `float()` rejects the throughput numeral, the one failure modelled (see "## Left out") |
| PerfParser.SectionLine | src/localbolt/parsing/perf_parser.py:36-65 | inside the section a line advances the ordinal by at most one, never clears `header_seen` and never removes an entry |
| PerfParser.RowLine | src/localbolt/parsing/perf_parser.py:46-65 | the bracketed shape is tried before the tabular shape; neither touches the section or header flags; a line of neither shape, or a non-bracketed line before the header, leaves the state unchanged |
| PerfParser.TabularLine | src/localbolt/parsing/perf_parser.py:56-65 | the tabular attempt changes only the map and the ordinal |
| PerfParser.Step | src/localbolt/parsing/perf_parser.py:29-65 | one loop iteration keeps the ordinal and the map monotone; outside the section, a line without the marker changes nothing; inside it, a non-blank, non-header line that matches no row shape (or only the tabular one before the header) changes nothing; the ordinal advances only on a tabular row after the header |
| PerfParser.ParseMcaOutput | src/localbolt/parsing/perf_parser.py:9-67 | the imperative loop computes `ParseSpec`, which runs `Step` over all lines from the empty state |
| PerfParser.ParseSectionLine | src/localbolt/parsing/perf_parser.py:36-65 | the loop body for a non-marker line in the section computes `SectionLine` |
| PerfParser.ParseRow | src/localbolt/parsing/perf_parser.py:46-65 | the two row attempts, in order, compute `RowLine` |
| PerfParser.ParseTabularRow | src/localbolt/parsing/perf_parser.py:56-65 | the table-format attempt computes `TabularLine` |
| PerfParser.ClosedSectionIgnoresLines | src/localbolt/parsing/perf_parser.py:32-36 | outside the section, lines without the marker change nothing |
| PerfParser.NoMarkerYieldsEmpty | src/localbolt/parsing/perf_parser.py:29-36 | text with no `Instruction Info:` line, empty text included, yields the empty map |
| PerfParser.RunMonotone | src/localbolt/parsing/perf_parser.py:16-27 | `current_idx` never decreases, `header_seen` is never reset, and no entry is ever removed |
| PerfParser.CounterKeysStored | src/localbolt/parsing/perf_parser.py:57-65 | every ordinal below the tabular counter holds an entry, before and after any run |
| PerfParser.RowLineNotBlank | src/localbolt/parsing/perf_parser.py:37-39 | a line of either row shape is never blank, so the blank test cannot take it |
| PerfParser.BracketedRowStored | src/localbolt/parsing/perf_parser.py:46-54 | in the section, a bracketed row stores `(latency, uops, tput)` under its literal index and nothing else changes |
| PerfParser.TabularRowBeforeHeaderIgnored | src/localbolt/parsing/perf_parser.py:56-58 | before the `[1]`/`[2]` header, an in-section tabular-shaped line that is not bracketed changes nothing |
| PerfParser.TabularRowStored | src/localbolt/parsing/perf_parser.py:56-65 | after the header, a tabular row that is not bracketed stores `(latency, uops, tput)` under the current ordinal, which advances by one |
| PerfParser.TabularRowsNumbered | src/localbolt/parsing/perf_parser.py:42-65 | tabular rows after the header get consecutive ordinals from the current one on, in encounter order |
| PerfParser.NumberedStores | src/localbolt/parsing/perf_parser.py:64-65 | numbering stores entry `k` under ordinal `current_idx + k` and keeps the entries below the ordinal |
| PerfParser.BracketedExample | src/localbolt/parsing/perf_parser.py:29-54 | a marker followed by `[0]: {1, 0.50, 0.50}` and `[1]: {3, 1.00, 1.00}` yields ordinal 0 with latency 1 and ordinal 1 with latency 3 |
| PerfParser.LeadingBlanksKeepSectionOpen | src/localbolt/parsing/perf_parser.py:37-39 | blank lines in an open section with no entry yet are skipped and do not close it |
| PerfParser.BlankLineClosesNonEmptySection | src/localbolt/parsing/perf_parser.py:37-39 | once an entry is stored, a blank line closes the section |
| PerfParser.ClosedUntilReopened | src/localbolt/parsing/perf_parser.py:32-39 | after the section closes nothing is recorded until a marker line reopens it |
| PerfParser.MarkerOpensSection | src/localbolt/parsing/perf_parser.py:32-34 | a marker line opens the section, whatever the state |
| PerfParser.RunAppend | src/localbolt/parsing/perf_parser.py:29-65 | running over `a + b` runs over `a`, then over `b` from the state reached; a failure in `a` ends the parse |
| Diagnostics.MatchLine | src/localbolt/parsing/diagnostics.py:19-26 | a match yields a record whose severity is `error` or `warning` |
| Diagnostics.MatchLineSound | src/localbolt/parsing/diagnostics.py:19 | a record comes from some colon of the line from which the rest of the pattern reads it |
| Diagnostics.NoMatchNoAnchor | src/localbolt/parsing/diagnostics.py:19 | a line with any colon from which the rest of the pattern succeeds does match |
| Diagnostics.SuffixMatch | src/localbolt/parsing/diagnostics.py:19 | the greedy `.*` keeps the match found furthest right, whatever precedes it |
| Diagnostics.ParseDiagnostics | src/localbolt/parsing/diagnostics.py:12-29 | the loop yields `Diagnose` of the stderr lines: one record per matching line, in order |
| Diagnostics.EmptyStderr | src/localbolt/parsing/diagnostics.py:17-29 | empty stderr yields no diagnostics |
| Diagnostics.DiagnoseAppend | src/localbolt/parsing/diagnostics.py:21-27 | the records of `a + b` are those of `a`, then those of `b` |
| Diagnostics.DiagnoseLength | src/localbolt/parsing/diagnostics.py:21-27 | there are never more diagnostics than lines |
| Diagnostics.DiagnoseSound | src/localbolt/parsing/diagnostics.py:19-27 | every record is the match of some input line and has severity `error` or `warning` |
| Diagnostics.DiagnoseComplete | src/localbolt/parsing/diagnostics.py:21-27 | every matching line contributes its record |
| Diagnostics.NoColonNoDiagnostic | src/localbolt/parsing/diagnostics.py:19 | a line without a colon never matches |
| Diagnostics.SummaryLineIgnored | tests/unit/test_diagnostics.py:45-86 | `1 error generated.` is not a diagnostic |
| Diagnostics.RustcHeaderIgnored | tests/unit/test_diagnostics.py:45-86 | rustc's `error[E0308]: ...` header is not a diagnostic |
| Diagnostics.RustcPointerIgnored | tests/unit/test_diagnostics.py:45-86 | rustc's `--> file:line:col` pointer is not a diagnostic |
| Diagnostics.IncludeLineIgnored | tests/unit/test_diagnostics.py:45-86 | `In file included from main.cpp:1:` is not a diagnostic |
| Diagnostics.ColonWithoutPosition | src/localbolt/parsing/diagnostics.py:19 | a line whose only colon is not followed by a digit does not match |
| Diagnostics.PositionWithoutSeverity | src/localbolt/parsing/diagnostics.py:19 | `path:line:col` with nothing after it is not a diagnostic |
| Diagnostics.LineNumberOnly | src/localbolt/parsing/diagnostics.py:19 | a line number followed by a bare colon is not a position |
| Diagnostics.RenderedRoundTrip | src/localbolt/parsing/diagnostics.py:19-26 | `path:ln:col: sev: msg` yields exactly that line, column and severity and the stripped message, whatever the path holds (directories, colons, digits), provided the message has no colon |
| Diagnostics.DiagnoseMiddle | src/localbolt/parsing/diagnostics.py:21-27 | of three lines where only the middle one matches, only its record comes out |
| Diagnostics.IncludeTraceExample | tests/unit/test_diagnostics.py:45-86 | an include header, a diagnostic and a summary line yield just the diagnostic |
| RustDemangle.RemoveHashes | src/localbolt/parsing/rust_demangle.py:10-59 | the result is never longer than the input |
| RustDemangle.RemoveHashesOfHashFree | src/localbolt/parsing/rust_demangle.py:59 | text with no match comes back unchanged |
| RustDemangle.RemoveHashesShrinks | src/localbolt/parsing/rust_demangle.py:59 | text with a match comes back strictly shorter |
| RustDemangle.RemoveHashesFixedPoint | src/localbolt/parsing/rust_demangle.py:59 | hash removal changes the text exactly when the pattern occurs in it |
| RustDemangle.DeletesEveryHash | src/localbolt/parsing/rust_demangle.py:10-59 | every `::h` plus 16 lower-case hex digits is deleted wherever it stands: the text around it is processed as if the match were absent |
| RustDemangle.RemoveHashesNotIdempotent | src/localbolt/parsing/rust_demangle.py:59 | deleting one match can close a new one around it: `::h::h<d><d>` becomes `::h<d>`, which a second pass deletes |
| RustDemangle.ReplaceAll | src/localbolt/parsing/rust_demangle.py:62-67 | `str.replace` never lengthens the text when the replacement is shorter |
| RustDemangle.ReplaceFixedPoint | src/localbolt/parsing/rust_demangle.py:62-67 | with a shorter replacement, the text is unchanged exactly when the pattern does not occur in it |
| RustDemangle.ReplaceAtHead | src/localbolt/parsing/rust_demangle.py:62-67 | an occurrence at the head is replaced and the scan resumes after it |
| RustDemangle.Simplify | src/localbolt/parsing/rust_demangle.py:53-69 | the output is never longer than the input |
| RustDemangle.ShortenFromFixedPoint | src/localbolt/parsing/rust_demangle.py:62-67 | the shortenings leave text unchanged exactly when none of their paths occurs in it |
| RustDemangle.SimplifyFixedPoint | src/localbolt/parsing/rust_demangle.py:53-69 | the simplifier leaves text unchanged exactly when it holds no hash and none of the six paths |
| RustDemangle.PathShortened | src/localbolt/parsing/rust_demangle.py:62-67 | a path at the head of hash-free text is replaced by its short form |
| RustDemangle.TrailingHashIgnored | src/localbolt/parsing/rust_demangle.py:59-67 | a hash at the end of the text makes no difference to the result |
| RustDemangle.ColonFreeUntouched | tests/unit/test_rust_demangle.py:75-82 | text without a colon, such as `push rbp`, is never changed |
| RustDemangleExamples.HashFound | tests/unit/test_rust_demangle_extended.py:130-173 | a full 16-digit hash after a path is found |
| RustDemangleExamples.ShortHashNotFound | tests/unit/test_rust_demangle_extended.py:130-173 | `::h` with four hex digits is not a hash |
| RustDemangleExamples.UpperCaseHashNotFound | tests/unit/test_rust_demangle_extended.py:130-173 | upper-case hex digits are not hash digits |
| RustDemangleExamples.UnprefixedHashNotFound | tests/unit/test_rust_demangle_extended.py:130-173 | `h` and hex digits without the leading `::` are not a hash |
| RustDemangleExamples.PassThroughExamples | tests/unit/test_rust_demangle.py:75-82 | `""`, `push rbp` and `std::vector<int>::push_back` pass through unchanged |
| RustDemangleExamples.FnOnceExample | tests/unit/test_rust_demangle_extended.py:136-142 | `core::ops::function::FnOnce::call_once` becomes `FnOnce::call_once` |
| RustDemangleExamples.FnMutExample | src/localbolt/parsing/rust_demangle.py:63 | `core::ops::function::FnMut::call_mut` becomes `FnMut::call_mut` |
| RustDemangleExamples.FmtExample | tests/unit/test_rust_demangle_extended.py:136-142 | `core::fmt::Display` becomes `fmt::Display` |
| RustDemangleExamples.StringExample | src/localbolt/parsing/rust_demangle.py:66 | `alloc::string::String` becomes `String` |
| RustDemangleExamples.VecExample | src/localbolt/parsing/rust_demangle.py:67 | `alloc::vec::Vec<i32>` becomes `Vec<i32>` |
| RustLexer.SearchIff | src/localbolt/parsing/rust_lexer.py:36 | `re.search` on a group of words succeeds exactly when some word occurs in the text |
| RustLexer.NoiseLineIff | src/localbolt/parsing/rust_lexer.py:22-40 | a line is noise exactly when it names a Rust section anywhere, or its text after the indentation starts with `.Ltmp`, `.Lfunc_end`, `.Lfunc_begin` or `.LBB` followed by a digit |
| RustLexer.BlankLineNotNoise | tests/unit/test_rust_lexer_extended.py:18-50 | empty and whitespace-only lines are not noise |
| RustLexer.IndentedNoiseLine | src/localbolt/parsing/rust_lexer.py:35-39 | indentation does not change the verdict |
| RustLexer.LabelOnlyAtHead | src/localbolt/parsing/rust_lexer.py:38 | a label counts only at the head of the stripped line, never as an operand |
| RustLexer.NoiseSymbolIff | src/localbolt/parsing/rust_lexer.py:11-52 | a symbol is runtime noise exactly when it contains an allocator name or a panic name |
| RustLexer.NoiseSymbolSuperstring | src/localbolt/parsing/rust_lexer.py:48-51 | any symbol containing a noise symbol is noise |
| RustLexer.ShortSymbolNotNoise | src/localbolt/parsing/rust_lexer.py:11-19 | symbols shorter than `__rg_` are never noise |
| RustLexerExamples.NoteSectionIsNoise | src/localbolt/parsing/rust_lexer.py:25-37 | `.section .note.rustc` is noise |
| RustLexerExamples.BlockLabelIsNoise | src/localbolt/parsing/rust_lexer.py:22-39 | `.LBB0_1` at the head of a line is noise |
| RustLexerExamples.OperandLabelNotNoise | src/localbolt/parsing/rust_lexer.py:22-39 | `jne .LBB0_1` is not noise |
| RustLexerExamples.TextSectionNotNoise | tests/unit/test_rust_lexer_extended.py:18-50 | `.section .text` is not noise |
| RustLexerExamples.GloblNotNoise | tests/unit/test_rust_lexer_extended.py:18-50 | `.globl main` is not noise |
| RustLexerExamples.UserLabelNotNoise | tests/unit/test_rust_lexer_extended.py:18-50 | `main:` is not noise |
| RustLexerExamples.PlainLineNotNoise | tests/unit/test_rust_lexer_extended.py:18-50 | a line that names no section and does not start with `.L` after its indentation is not noise |
| RustLexerExamples.AllocShimIsNoise | src/localbolt/parsing/rust_lexer.py:11-14 | `__rdl_alloc` is noise |
| RustLexerExamples.PanicIsNoise | src/localbolt/parsing/rust_lexer.py:17-19 | `core::panic::panic_fmt` is noise |
| RustLexerExamples.VecPathNotNoise | tests/unit/test_rust_lexer_extended.py:77-92 | `std::vec::Vec` is not noise |
| RustLexerExamples.IteratorPathNotNoise | tests/unit/test_rust_lexer_extended.py:77-92 | `core::iter::Iterator` is not noise |
| RustLexerExamples.CxaThrowNotNoise | tests/unit/test_rust_lexer_extended.py:77-92 | `__cxa_throw` is not noise |
| RustLexerExamples.RustAllocNotNoise | tests/unit/test_rust_lexer_extended.py:77-92 | `rust_alloc` is not noise |
| RustLexerExamples.UserAllocatorNotNoise | tests/unit/test_rust_lexer_extended.py:77-92 | `my_rust_allocator` is not noise |
| RustDriver.BuildCommand | src/localbolt/compiler/rust_driver.py:70-105 | with no compiler, the result is the installation hint as an error and no command is built; otherwise the result is the full `Command` |
| RustDriver.TranslateUserFlags | src/localbolt/compiler/rust_driver.py:89-98 | the flag loop returns the translated user flags and whether any was `-O0` to `-O3` |
| RustDriver.TranslateAppend | src/localbolt/compiler/rust_driver.py:90-98 | flags are translated one at a time, in user order |
| RustDriver.DroppedFlag | src/localbolt/compiler/rust_driver.py:98 | a flag that is neither `-O0` to `-O3` nor rustc-native leaves no trace |
| RustDriver.MixedFlagsExample | src/localbolt/compiler/rust_driver.py:89-98 | `-O2 -fverbose-asm --edition=2021` translates to `-C opt-level=2 --edition=2021` |
| RustDriver.CppFlagsDropped | src/localbolt/compiler/rust_driver.py:98 | `-fverbose-asm` and `-masm=intel` are dropped |
| RustDriver.SplitCodegenFlag | src/localbolt/compiler/rust_driver.py:95-98 | `-C target-cpu=native` as two words keeps only the bare `-C`; its value is dropped |
| RustDriver.NativeFlagPassed | src/localbolt/compiler/rust_driver.py:95-97 | every user flag starting `-C` or `--` reaches the translated arguments verbatim |
| RustDriver.TranslatedArgs | src/localbolt/compiler/rust_driver.py:89-98 | each translated argument is `-C`, `opt-level=N` for N in 0 to 3, or a native user flag |
| RustDriver.CommandFrame | src/localbolt/compiler/rust_driver.py:77-105 | the command starts `[compiler, --emit, asm, -C, debuginfo=2]` and ends `[-o, output, source]` |
| RustDriver.CommandMiddle | src/localbolt/compiler/rust_driver.py:84-102 | between the base arguments and `-o` come the Intel pair (on x86 only), the translated flags and the default level (when no level was given) |
| RustDriver.IntelSyntaxIff | src/localbolt/compiler/rust_driver.py:84-86 | Intel syntax is requested exactly when the lowercased machine name contains `x86`, `amd64` or `i386`; otherwise no argument before `-o` asks for it |
| RustDriver.Amd64IsX86 | src/localbolt/compiler/rust_driver.py:84-85 | `AMD64` counts as x86 because the test uses the lowercased name |
| RustDriver.Arm64NotX86 | src/localbolt/compiler/rust_driver.py:84-85 | `arm64` does not count as x86 |
| RustDriver.OptLevelsOfCommand | src/localbolt/compiler/rust_driver.py:89-102 | the command's `opt-level=` arguments are the user's levels in order; with no level flag there is exactly one, `opt-level=0` |
| RustDriver.McaInput | src/localbolt/compiler/rust_driver.py:131-143 | the llvm-mca input is the sanitised lines joined by `\n`; when no line survives, the result is the "no assembly instructions" error |
| RustDriver.LabelAtIff | src/localbolt/compiler/rust_driver.py:18 | the greedy reading of `[a-zA-Z_][\w$.]*:` agrees with the regular expression: some run of label characters is followed by a colon |
| RustDriver.SanitizeSound | src/localbolt/compiler/rust_driver.py:132-138 | every line passed on is an input line that is neither blank, a `;` comment, a directive nor a label |
| RustDriver.SanitizeComplete | src/localbolt/compiler/rust_driver.py:132-138 | every instruction line of the input is passed on |
| RustDriver.SanitizeAppend | src/localbolt/compiler/rust_driver.py:133-138 | sanitising distributes over concatenation, so survivors keep their order |
| RustDriver.SanitizeIdempotent | src/localbolt/compiler/rust_driver.py:132-138 | sanitising twice is sanitising once |
| RustDriver.NoInstructionsIff | src/localbolt/compiler/rust_driver.py:140-141 | the error is returned exactly when no input line is an instruction |
| RustDriver.IndentedInstruction | src/localbolt/compiler/rust_driver.py:16-20 | indentation does not change whether a line is an instruction |
| RustDriver.MnemonicLine | src/localbolt/compiler/rust_driver.py:16-20 | a mnemonic made of letters, followed by whitespace or nothing, is an instruction |
| RustDriver.LabelLine | src/localbolt/compiler/rust_driver.py:18 | a label name followed by a colon is dropped, however indented |
| RustDriver.DirectiveLine | src/localbolt/compiler/rust_driver.py:17 | a directive is dropped, however indented |
| RustDriver.CommentLine | src/localbolt/compiler/rust_driver.py:20 | a `;` comment is dropped, however indented |
| RustDriver.MainLabelDropped | src/localbolt/compiler/rust_driver.py:18 | `main:` is dropped |
| RustDriver.BlockLabelDropped | src/localbolt/compiler/rust_driver.py:17 | `.LBB0_1:` is dropped |
| RustDriver.SectionDirectiveDropped | src/localbolt/compiler/rust_driver.py:17 | `.section .text` is dropped |
| RustDriver.CommentDropped | src/localbolt/compiler/rust_driver.py:20 | `; comment` is dropped |
| RustDriver.PushRetPassed | src/localbolt/compiler/rust_driver.py:132-138 | `push rbp` and `ret` both reach llvm-mca, in order |
| Analyzer.GetFlagsFromDb | src/localbolt/compiler/analylzer.py:24-55 | with no database (an exception while loading), no flags; otherwise the loop returns `Lookup` over the entries |
| Analyzer.UsefulIs | src/localbolt/compiler/analylzer.py:49 | the `startswith` test on the tuple is membership in the prefix list `-I`, `-D`, `-std`, `-f`, `-m` |
| Analyzer.UsefulIsSubsequence | src/localbolt/compiler/analylzer.py:43-50 | the kept arguments are a subsequence of the arguments |
| Analyzer.UsefulSound | src/localbolt/compiler/analylzer.py:47-51 | every kept argument is one of the arguments and has a useful prefix |
| Analyzer.UsefulComplete | src/localbolt/compiler/analylzer.py:47-51 | every argument with a useful prefix is kept |
| Analyzer.CompilerSkipped | src/localbolt/compiler/analylzer.py:48 | the flags are a subsequence of the arguments after `argv[0]`, and two commands that differ only in `argv[0]` give the same flags, whatever it looks like |
| Analyzer.FlagLikeCompilerSkipped | src/localbolt/compiler/analylzer.py:48 | a flag-like `argv[0]`, as in `-Ifoo x -DY`, is skipped: the flags are exactly `-DY` |
| Analyzer.FirstMatchWins | src/localbolt/compiler/analylzer.py:35-51 | only the first entry whose resolved file equals the source is used, whatever follows it |
| Analyzer.NoMatchNoFlags | src/localbolt/compiler/analylzer.py:35-55 | with no matching entry there are no flags |
| Analyzer.MissingFileNoFlags | src/localbolt/compiler/analylzer.py:37-55 | an entry without a `file`, met before any match, raises, and the result is no flags |
| Analyzer.LookupSound | src/localbolt/compiler/analylzer.py:35-51 | whatever the lookup returns is a subsequence of some entry's arguments after the compiler, all useful |
| Analyzer.TypicalCommand | src/localbolt/compiler/analylzer.py:43-51 | of the arguments `-I/usr/include -DDEBUG -O2 main.cpp -std=c++17`, exactly `-I/usr/include -DDEBUG -std=c++17` are kept |
| Analyzer.NotUseful | src/localbolt/compiler/analylzer.py:49 | an argument whose second character is none of `I`, `D`, `s`, `f`, `m` is not kept |
| Lang.AfterLastSlash | src/localbolt/utils/lang.py:30 | the result is a tail of the path with no `/` in it, preceded by `/` unless it is the whole path |
| Lang.Name | src/localbolt/utils/lang.py:30 | `Path(p).name` never holds a `/` and is never `.` |
| Lang.LastDot | src/localbolt/utils/lang.py:30 | the index of the last `.`, or -1 when there is none |
| Lang.ExtMapEntries | src/localbolt/utils/lang.py:16-23 | the extension table, entry by entry |
| Lang.LanguageIff | src/localbolt/utils/lang.py:16-31 | C++ exactly for `.cpp`, `.cc`, `.cxx`, `.c` and `.C`; Rust exactly for `.rs`; anything else is unknown |
| Lang.SupportedIff | src/localbolt/utils/lang.py:25-36 | a path is supported exactly when its language is known |
| Lang.LabelOfPath | src/localbolt/utils/lang.py:39-43 | the label is `RUST SOURCE` for Rust and `C++ SOURCE` for everything else, unknown included |
| Lang.SuffixOf | src/localbolt/utils/lang.py:30 | the suffix of a non-empty stem, a dot and a non-empty dot-free extension is that extension |
| Lang.NoDotNoSuffix | tests/unit/test_lang_extended.py:11-34 | a name without dots has no suffix |
| Lang.HiddenNoSuffix | tests/unit/test_lang_extended.py:11-34 | a name whose only dot leads it has no suffix |
| Lang.TrailingDotNoSuffix | src/localbolt/utils/lang.py:30 | a name ending in a dot has no suffix |
| Lang.NameOfComponent | src/localbolt/utils/lang.py:30 | the final component is its own name, whatever directories precede it |
| Lang.DetectOf | src/localbolt/utils/lang.py:28-31 | the language of `stem + ext`, alone or under a directory, is the table's entry for `ext` |
| Lang.LastExtensionCounts | src/localbolt/utils/lang.py:30 | only the last extension counts: `main.test.rs` is Rust |
| Lang.CaseSensitive | src/localbolt/utils/lang.py:16-23 | `.C` is C++, `.CPP` is not |
| Lang.HiddenFileUnknown | tests/unit/test_lang_extended.py:11-34 | `.gitignore` and `.cpp` have no language |
| Lang.EmptyPathUnknown | tests/unit/test_lang_extended.py:11-34 | the empty path has no language |
| Lang.NoDotUnknown | tests/unit/test_lang_extended.py:11-34 | a name without a dot has no language |
| Highlighter.SearchFrom | src/localbolt/utils/highlighter.py:24-33 | a position found is the start of a whole word that the vocabulary accepts, and no accepted word starts between the scan's start and it |
| Highlighter.FindInstructionSound | src/localbolt/utils/highlighter.py:24-33 | what the search returns is a whole word of the text that the vocabulary accepts |
| Highlighter.FindInstructionFirst | src/localbolt/utils/highlighter.py:24-33 | the search returns the first accepted word of the text |
| Highlighter.FindInstructionNone | src/localbolt/utils/highlighter.py:24-33 | the search fails exactly when no word of the text is accepted |
| Highlighter.MnemonicIgnoresCase | src/localbolt/utils/highlighter.py:32 | upper-casing a word does not change whether it is accepted |
| Highlighter.CmovFamily | src/localbolt/utils/highlighter.py:30 | `cmov` followed by any word characters is an instruction |
| Highlighter.SeverityMonotone | src/localbolt/utils/highlighter.py:119-125 | more cycles never give a milder style |
| Highlighter.PadRight | src/localbolt/utils/highlighter.py:126 | `f"{s:<w}"` keeps `s` at the front, pads with spaces to `w` characters and never truncates |
| Highlighter.CellShape | src/localbolt/utils/highlighter.py:117-128 | a line with no count gets four unstyled spaces; a count is printed left-aligned in at least four characters, never truncated, styled green if at most 1, yellow if 2 to 4, bold red if 5 or more |
| Highlighter.CellIsOneLine | src/localbolt/utils/highlighter.py:117-128 | a cell is never empty and holds no line break |
| Highlighter.BuildGutter | src/localbolt/utils/highlighter.py:91-133 | the loop produces `Gutter(counts, len(lines))`: the cells of lines 1 to n with a line break after each but the last |
| Highlighter.PrefixShape | src/localbolt/utils/highlighter.py:115-131 | after `i` iterations, cells sit at even positions in line order and line breaks at odd ones |
| Highlighter.GutterShape | src/localbolt/utils/highlighter.py:115-131 | one entry per line, entry `k` reading the count of line `k + 1`, separated by exactly `n - 1` line breaks |
| Highlighter.GutterText | src/localbolt/utils/highlighter.py:115-131 | the gutter's text is the cell texts joined by single line breaks, with none after the last and nothing for no lines |
| Highlighter.GutterLines | src/localbolt/utils/highlighter.py:109-131 | splitting the gutter's text at its line breaks gives back one cell per line |
| AsmHelp.SplitOn | src/localbolt/ui/instruction_help.py:62 | `key.split('/')` always yields at least one piece |
| AsmHelp.SplitPiecesFree | src/localbolt/ui/instruction_help.py:62 | no piece of a split holds the separator |
| AsmHelp.JoinSplit | src/localbolt/ui/instruction_help.py:62 | joining the pieces of a split with the separator gives the text back |
| AsmHelp.SplitJoin | src/localbolt/utils/asm_help.py:6-27 | splitting a join of separator-free pieces gives the pieces back |
| AsmHelp.KeyNames | src/localbolt/utils/asm_help.py:6-27 | `key.split('/')` of each entry gives its names |
| AsmHelp.TableShape | src/localbolt/utils/asm_help.py:6-27 | the table has 20 entries, MOV first and NOP last; `JE/JZ`, `JNE/JNZ` and `AND/OR/XOR` sit at positions 11, 12 and 18 |
| AsmHelp.NamesWellFormed | src/localbolt/utils/asm_help.py:6-27 | every name is an upper-case word of at least two letters |
| AsmHelp.NamesDistinct | src/localbolt/utils/asm_help.py:6-27 | no name occurs twice, within or across keys, so at most one entry holds a given name |
| AsmHelp.FirstNamesLong | src/localbolt/utils/asm_help.py:6-27 | every key's first name has at least two characters |
| AsmHelp.NoBranchKey | src/localbolt/utils/asm_help.py:6-27 | no key is `B.` |
| AsmHelp.MovExample | tests/unit/test_asm_help.py:17-22 | MOV's example contains `mov` |
| InstructionHelp.ShowForAsmLine | src/localbolt/ui/instruction_help.py:34-83 | the handler shows `ShowFor(line)`: empty, unknown with the mnemonic, or the mnemonic with its entry's key and help |
| InstructionHelp.ExtractMnemonic | src/localbolt/ui/instruction_help.py:46-56 | the mnemonic is the first accepted word upper-cased, else the first word upper-cased unless it starts with `.` |
| InstructionHelp.LookupHelp | src/localbolt/ui/instruction_help.py:59-80 | the prefix pass runs only when the exact pass finds nothing |
| InstructionHelp.ExactPass | src/localbolt/ui/instruction_help.py:59-68 | the loop stops at the first entry that holds the mnemonic as a name, or that is the `B.` key for a `B.` mnemonic |
| InstructionHelp.PrefixPass | src/localbolt/ui/instruction_help.py:70-76 | the loop stops at the first entry whose leading name, at least two long, starts the mnemonic |
| InstructionHelp.FirstTrueSpec | src/localbolt/ui/instruction_help.py:60-76 | a pass that breaks at its first hit stops at a successful test with none before it, and finds nothing exactly when no test succeeds |
| InstructionHelp.ExactHitIff | src/localbolt/ui/instruction_help.py:62-68 | the exact pass accepts exactly the entries that hold the mnemonic as a name; the `B.` branch never fires on this table |
| InstructionHelp.ExactLookup | src/localbolt/ui/instruction_help.py:59-64 | a mnemonic that is a name of entry `k` always shows entry `k` |
| InstructionHelp.PrefixLookup | src/localbolt/ui/instruction_help.py:70-80 | a mnemonic that is no name shows the first entry whose leading name starts it, or unknown when there is none |
| InstructionHelp.ShownEntryMatches | src/localbolt/ui/instruction_help.py:59-83 | a shown entry holds the mnemonic as a name or has a leading name that starts it |
| InstructionHelp.FirstPrefixAt | src/localbolt/ui/instruction_help.py:70-76 | the first entry in table order that the prefix pass accepts is the one found |
| InstructionHelp.BlankOrLabelIsEmpty | src/localbolt/ui/instruction_help.py:38-43 | blank lines and lines ending in `:` show the empty prompt |
| InstructionHelp.IndentationIgnored | src/localbolt/ui/instruction_help.py:38 | indentation does not change the prompt |
| InstructionHelp.MnemonicFromLine | src/localbolt/ui/instruction_help.py:46-56 | a mnemonic shown or reported unknown is the upper-cased form of a word of the line |
| InstructionHelp.MovVariants | src/localbolt/ui/instruction_help.py:70-76 | every mnemonic starting `MOV` that is no other name, such as `MOVL` or `MOVSX`, shows the MOV entry |
| InstructionHelp.PushVariants | src/localbolt/ui/instruction_help.py:70-76 | every longer form of PUSH, such as `PUSHQ`, shows the PUSH entry |
| SourcePeek.FirstMapped | src/localbolt/ui/source_peek.py:58-62 | an offset found lies in 1..19, its line is not below 0 and is mapped |
| SourcePeek.FirstMappedNearest | src/localbolt/ui/source_peek.py:58-62 | every line the search passes over is unmapped |
| SourcePeek.SourcePeekPanel.constructor | src/localbolt/ui/source_peek.py:40-48 | a new panel has no source lines and no mapping, and is hidden |
| SourcePeek.SourcePeekPanel.UpdateContext | src/localbolt/ui/source_peek.py:50-52 | replaces the source lines and the mapping and nothing else |
| SourcePeek.SourcePeekPanel.ShowForAsmLine | src/localbolt/ui/source_peek.py:54-69 | the panel becomes visible with the rows of the line found when that line lies in the source; otherwise it is hidden and its rows are kept |
| SourcePeek.SourcePeekPanel.Lookup | src/localbolt/ui/source_peek.py:55-62 | the search loop returns `SourceFor(mapping, asm_line)` |
| SourcePeek.SourcePeekPanel.RenderLine | src/localbolt/ui/source_peek.py:71-100 | a line outside 1..len(source), or empty source, hides the panel; otherwise the rows are the target with its existing neighbours |
| SourcePeek.MappedUsesOwn | src/localbolt/ui/source_peek.py:55 | a mapped line uses its own source line |
| SourcePeek.NearestBehind | src/localbolt/ui/source_peek.py:58-66 | an unmapped line uses the nearest mapped line at most 19 behind it and not below 0; nothing is found exactly when there is no such line |
| SourcePeek.NegativeLooksUpOnly | src/localbolt/ui/source_peek.py:59-60 | a negative line only looks itself up |
| SourcePeek.OnlyConsultedMatter | src/localbolt/ui/source_peek.py:55-62 | only the line itself and the 19 lines before it (none below 0) are consulted: mappings that agree on them give the same answer |
| SourcePeek.ViewShape | src/localbolt/ui/source_peek.py:73-98 | a view exists exactly for lines 1..len; it holds the target, the line above exactly when the target is at least 2, the line below exactly when it is not the last, with consecutive numbers |
| AsmApp.Padding | src/localbolt/asm_ui/asm_app.py:110-113 | `max(1, width - used)`: at least one space, and exactly the remaining width when that is more than one |
| AsmApp.Marker | src/localbolt/asm_ui/asm_app.py:101-105 | the cursor indicator is two characters wide |
| AsmApp.AsmViewer.constructor | src/localbolt/asm_ui/asm_app.py:60-65 | no lines, cursor 0, and the given counts or the empty table |
| AsmApp.AsmViewer.LoadAsm | src/localbolt/asm_ui/asm_app.py:122-125 | loading stores the lines and resets the cursor to 0, keeping it in range |
| AsmApp.AsmViewer.MoveCursor | src/localbolt/asm_ui/asm_app.py:150-154 | a target outside `[0, len)` is ignored; an in-range target becomes the cursor |
| AsmApp.AsmViewer.CursorUp | src/localbolt/asm_ui/asm_app.py:165-166 | moves to cursor - 1 when that is a line |
| AsmApp.AsmViewer.CursorDown | src/localbolt/asm_ui/asm_app.py:168-169 | moves to cursor + 1 when that is a line |
| AsmApp.AsmViewer.GetLine | src/localbolt/asm_ui/asm_app.py:178-182 | `""` with no lines, else the line at the cursor |
| AsmApp.AsmViewer.Layout | src/localbolt/asm_ui/asm_app.py:91-120 | a row has the marker exactly on the cursor line, the count stored under `idx + 1` as its gutter, and padding that fills the width |
| AsmApp.AsmViewer.LineClasses | src/localbolt/asm_ui/asm_app.py:129-135 | a line has `cursor` exactly when it is the cursor line, plus its non-empty severity class |
| AsmApp.SeverityClassIff | src/localbolt/asm_ui/asm_app.py:23-31 | no count gives `""`, at most 1 `sev-low`, 2 to 4 `sev-med`, 5 or more `sev-high` |
| AsmApp.SeverityClassMatchesGutter | src/localbolt/asm_ui/asm_app.py:23-31 | the tint bands agree with the gutter colours |
| AsmApp.MovedInRange | src/localbolt/asm_ui/asm_app.py:150-154 | a move keeps the cursor on a line, and reaches the target exactly when it is in range |
| AsmApp.UpDownInverse | src/localbolt/asm_ui/asm_app.py:165-169 | up then down (or down then up) returns to the same line away from the edges |
| AsmApp.EdgesStay | src/localbolt/asm_ui/asm_app.py:150-152 | up on the first line and down on the last do nothing |
| AsmApp.GutterAtRightEdge | src/localbolt/asm_ui/asm_app.py:110-113 | a row with room puts the gutter exactly at the right edge |
| Widgets.StatusBar.constructor | src/localbolt/ui/widgets.py:37-42 | a new bar has no file, no flags, status `idle` and no errors |
| Widgets.StatusBar.SetStatus | src/localbolt/ui/widgets.py:44-60 | sets exactly the fields given, keeps the rest and re-renders the bar |
| Widgets.StatusBar.RenderBar | src/localbolt/ui/widgets.py:62-71 | the bar is the parts joined by `"  │  "`; no field changes |
| Widgets.PartsOrder | src/localbolt/ui/widgets.py:63-70 | the file part comes first exactly when there is a file, then the flags part exactly when there are flags, then the status, then the error part exactly when errors is non-zero |
| Widgets.BarShowsStatus | src/localbolt/ui/widgets.py:68 | the bar always contains `"● " + status` |
| Widgets.BarShowsFileAndErrors | src/localbolt/ui/widgets.py:64-70 | the bar shows the file, the flags and the error count when they are set |
| Widgets.IdleBar | src/localbolt/ui/widgets.py:37-42 | a new bar, once rendered, reads `● idle` |
| State.WithAsm | src/localbolt/utils/state.py:26-28 | sets the assembly and its mapping and nothing else |
| State.WithPerf | src/localbolt/utils/state.py:30-32 | sets the statistics and the raw analyser output and nothing else |
| State.LocalBoltState.constructor | src/localbolt/utils/state.py:10-24 | a new state has empty strings and maps, is not dirty, and was last updated at 0 |
| State.LocalBoltState.WithSourcePath | src/localbolt/utils/state.py:10-24 | a state built with only a source path has every other field at its default |
| State.LocalBoltState.UpdateAsm | src/localbolt/utils/state.py:26-28 | stores the assembly and mapping; no other field changes |
| State.LocalBoltState.UpdatePerf | src/localbolt/utils/state.py:30-32 | stores the statistics and raw output; no other field changes |
| State.InitialIsEmpty | src/localbolt/utils/state.py:10-24 | every default: empty strings and maps, not dirty, last update 0 |
| State.AsmUpdateReplaces | tests/unit/test_state.py:106-118 | a later assembly update replaces the earlier one, with no merging |
| State.PerfUpdateReplaces | tests/unit/test_state.py:106-118 | a later performance update replaces the earlier one |
| State.UpdatesCommute | src/localbolt/utils/state.py:26-32 | the two updates touch disjoint fields, so their order does not matter |
| State.UpdatesIndependent | src/localbolt/utils/state.py:26-32 | an assembly update keeps the performance data, and the performance update keeps the assembly |

## Left out

- Subprocesses and external tools are not modelled. This covers rustc, llvm-mca, rustfilt and c++filt, plus compiler discovery, temporary files and the tool-path fallbacks. Their outputs are parameters of the model.
  - `BuildCommand` takes the compiler found (or none), the machine name, the output file name and the already-resolved source path as inputs.
  - `McaInput` stops where llvm-mca would be looked up.
- `find_compile_commands`, JSON loading, `shlex.split` and `Path.resolve` are not modelled. `GetFlagsFromDb` receives the loaded entries, or none when loading raised, and takes path resolution and argument splitting as functions.
- Analyzer.GetFlagsFromDb: the `except` clause is modelled only for exceptions the model can see: a failed load, a missing `file` key, or a command `shlex` cannot split. A JSON value of the wrong shape is not represented. The `Error parsing compile commands: …` message the clause prints is not modelled either; only the empty result is.
- Analyzer.GetFlagsFromDb: the source ends with the `return []` fallback on the line after `analylzer.py:55`. That line has no line terminator, so the model table cites the function up to line 55.
- Text is modelled as lines already split at `\n`. Python's `splitlines` also splits at `\r`, `\v`, `\f`, `\x1c` to `\x1e`, `\x85`, U+2028 and U+2029. The model does not follow those other breaks.
- Character classes are ASCII.
  - `\s` and `str.isspace` are modelled as ASCII whitespace plus `\x1c` to `\x1f`, `\x85` and `\xa0`.
  - `\d` and `\w` are modelled as ASCII only.
  - `upper()` and `lower()` map ASCII letters only.
  - Python's Unicode classes and case mappings are not modelled.
- Diagnostics.ParseDiagnostics: the source's pattern runs in `MULTILINE` mode on the whole stderr text, and its `\s+` can cross a line break. The model matches one line at a time, so a diagnostic whose severity or message starts on the next line is not represented. Nor is the `ValueError` that the source's `int()` raises on a line or column number of more than 4300 digits. The model yields a record for such a line.
- Diagnostics.RenderedRoundTrip: it is stated for messages without a colon. With a colon in the message, the greedy `.*` may anchor further right. The general case is covered by `MatchLineSound` and `SuffixMatch`.
- Floating-point values are not modelled. Uops and throughput are kept as the matched numeral strings. `float()` is modelled only by whether it accepts the numeral, which is `FloatParses`: a digit and at most one dot. A rejected numeral makes the parse return an error, as the raised `ValueError` would. `last_update` is a `real` that only ever holds its default.
- PerfParser.StoreTabular: its success condition covers only `float()` rejecting the throughput numeral. Two further failures of the source are not modelled, and the model stores the row instead:
  - `float(uops)` on an integer of more than about 308 digits raises `OverflowError`.
  - `int()` refuses a uops or latency run of more than 4300 digits, Python's default integer-string limit.
- PerfParser.StoreBracketed: its success condition covers only `float()` rejecting the uops or throughput numeral. `int()` refuses an index or latency run of more than 4300 digits, Python's default integer-string limit. The model reads any digit run and stores the row.
- TextUtil: `int` of a digit run is its unbounded decimal value, without Python's 4300-digit limit.
- PerfParser.ParseMcaOutput: stored uops and throughput are the numeral strings rather than their float values. A tabular row's uops is its digit string, not `float(int(...))`.
- Idempotence of `simplify_rust_symbols` is not claimed, because it does not hold. `RustDemangle.RemoveHashesNotIdempotent` shows hash removal creating a new hash, and `core::core::fmt::X` loses one `core::` per pass. The model proves the fixed-point characterisation and the length bound instead.
- `demangle_rust` and `has_rustfilt` are not modelled, because they only run an external tool.
- `clean_assembly_with_mapping`, `process_assembly`, instruction-ordinal alignment, `has_errors` and `get_source_line_for_asm` are not part of this model. Neither are the panel's `source_path` and `_language`, `create_gradient_header`, `severity_styles` or `highlight_asm_line`. Tests and imports refer to them, but their implementations are not in the source files modelled here.
- Rich and Textual are not modelled. This covers styled text rendering, widget mounting, queries, CSS and scrolling. It also covers `highlight_asm` and `display_asm_help`, plus the header line and number formatting of the source peek. What is displayed is reduced to values.
  - The help panel shows a `Prompt`.
  - The source peek shows `Row`s, each holding a number, a text and whether it is the target.
  - A viewer row is a `RowLayout`, holding the marker, the padding and the gutter.
  - The gutter is a sequence of text/style segments.
- SourcePeek.SourcePeekPanel.constructor: the panel starts hidden because its stylesheet says `display: none`. The model has no stylesheet; it records that initial value.
- AsmApp.AsmViewer.LineClasses: it gives the classes a line receives when the lines are loaded. `_move_cursor` then moves the `cursor` class between widgets, and the model has no widgets.
- AsmApp.AsmViewer.Layout: the terminal width from `_get_width` is a parameter. The highlighted assembly text is not part of the row layout.
- SourcePeek.SourcePeekPanel.UpdateContext: the panel keeps references to the caller's list and dict, so later changes to them show through. The model stores copies of the values, so that aliasing is not captured.
- State.LocalBoltState.UpdateAsm: `update_asm` keeps a reference to the caller's mapping dict. The model stores the map value, so aliasing with the caller is not captured.
- State.LocalBoltState.UpdatePerf: `update_perf` keeps a reference to the caller's statistics dict. The model stores the map value, so aliasing with the caller is not captured.
- AsmApp.AsmViewer.LoadAsm: the file read is left out. The lines arrive as a parameter.
- Highlighter.CellShape: the comment on `build_gutter` says counts are right-aligned, but the code pads them on the right, that is left-aligned. The model follows the code.
- Highlighter.CellShape: the blank cell is stated as four spaces. That is the value of `" " * gutter_width` with `gutter_width = 4`, and `BuildGutter` computes it the same way.
- AsmHelp: the table's keys are modelled as their `/`-separated names joined by `/`, which spells each key exactly as the dictionary literal does. The help texts are kept as data.
- The file watcher (threads, debounce on wall-clock time), the Textual application, `flags_palette.py`, `engine.py`, `main.py` and `driver.py` are not part of this model. They are orchestration and I/O around the modelled functions.
