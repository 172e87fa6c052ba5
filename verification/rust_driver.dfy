/**
  The pure parts of the rustc driver: the command line `compile` hands to
  rustc, and the sanitiser `analyze_perf` runs over the assembly before it is
  piped to llvm-mca.

  Locating rustc, the platform's machine name, the temporary output file and
  the resolved source path are parameters; running rustc and llvm-mca is not
  modelled. The assembly is taken as its list of lines (`splitlines`).
*/
module RustDriver {
  import opened Wrappers
  import opened TextUtil

  const MissingCompilerError := "Error: rustc not found. Install via https://rustup.rs/"
  const NoInstructionsError := "Error: no assembly instructions found after sanitization."

  /** What follows the compiler: emit assembly, with debug info for source mapping. */
  const BaseArgs: seq<string> := ["--emit", "asm", "-C", "debuginfo=2"]

  /** The codegen value that asks LLVM for Intel syntax. */
  const IntelSyntax := "llvm-args=--x86-asm-syntax=intel"

  /** The machine names that count as x86. */
  const X86Names: seq<string> := ["x86", "x86_64", "amd64", "i386"]

  /** The C-style optimisation flags that are translated. */
  const OptFlags: seq<string> := ["-O0", "-O1", "-O2", "-O3"]

  const OptPrefix := "opt-level="

  // ---------------------------------------------------------------------------
  // The rustc command line
  // ---------------------------------------------------------------------------

  /** Some x86 name occurs in the lowercased machine name. */
  predicate IsX86(machine: string) {
    var arch := Lower(machine);
    exists k :: 0 <= k < |X86Names| && Contains(arch, X86Names[k])
  }

  /** `-O` and a level from 0 to 3. */
  predicate IsOptFlag(flag: string) {
    |flag| == 3 && flag[0] == '-' && flag[1] == 'O' && '0' <= flag[2] <= '3'
  }

  /** The structural test is membership in the flag list. */
  lemma OptFlagsAre(flag: string)
    ensures flag in OptFlags <==> IsOptFlag(flag)
  {
    if IsOptFlag(flag) {
      assert flag == ['-', 'O', flag[2]];
    }
  }

  /** A rustc-native flag, passed through verbatim. */
  predicate IsNative(flag: string) {
    "-C" <= flag || "--" <= flag
  }

  /** The codegen value an optimisation flag stands for: `-ON` becomes `opt-level=N`. */
  function OptLevel(flag: string): string
    requires IsOptFlag(flag)
  {
    OptPrefix + [flag[|flag| - 1]]
  }

  /** The arguments one user flag contributes; other flags are dropped. */
  function FlagArgs(flag: string): seq<string> {
    if IsOptFlag(flag) then ["-C", OptLevel(flag)]
    else if IsNative(flag) then [flag]
    else []
  }

  /** The translated user flags, in user order. */
  function TranslateFlags(flags: seq<string>): seq<string>
    decreases |flags|
  {
    if flags == [] then []
    else TranslateFlags(flags[..|flags| - 1]) + FlagArgs(flags[|flags| - 1])
  }

  predicate HasOpt(flags: seq<string>) {
    exists i :: 0 <= i < |flags| && IsOptFlag(flags[i])
  }

  /** The command `compile` runs for a found compiler. */
  function Command(compiler: string, machine: string, flags: seq<string>, output: string, source: string): seq<string> {
    [compiler] + BaseArgs
    + (if IsX86(machine) then ["-C", IntelSyntax] else [])
    + TranslateFlags(flags)
    + (if HasOpt(flags) then [] else ["-C", OptPrefix + "0"])
    + ["-o", output, source]
  }

  lemma TranslateStep(flags: seq<string>, i: nat)
    requires i < |flags|
    ensures TranslateFlags(flags[..i + 1]) == TranslateFlags(flags[..i]) + FlagArgs(flags[i])
    ensures HasOpt(flags[..i + 1]) == (HasOpt(flags[..i]) || IsOptFlag(flags[i]))
  {
    assert flags[..i + 1][..i] == flags[..i];
    if HasOpt(flags[..i + 1]) && !IsOptFlag(flags[i]) {
      var j :| 0 <= j < i + 1 && IsOptFlag(flags[..i + 1][j]);
      assert flags[..i][j] == flags[j];
    }
    if HasOpt(flags[..i]) {
      var j :| 0 <= j < i && IsOptFlag(flags[..i][j]);
      assert flags[..i + 1][j] == flags[j];
    }
    if IsOptFlag(flags[i]) {
      assert flags[..i + 1][i] == flags[i];
    }
  }

  /**
    `compile` up to running rustc: without a compiler it returns the
    installation hint as the error; otherwise the command it would run.
  */
  method BuildCommand(compiler: Option<string>, machine: string, userFlags: seq<string>, outputFile: string, source: string)
    returns (r: Result<seq<string>, string>)
    ensures compiler.None? ==> r == Failure(MissingCompilerError)
    ensures compiler.Some? ==> r == Success(Command(compiler.value, machine, userFlags, outputFile, source))
  {
    if compiler.None? {
      return Failure(MissingCompilerError);
    }
    var command := [compiler.value] + BaseArgs;
    if IsX86(machine) {
      command := command + ["-C", IntelSyntax];
    }
    ghost var head := command;
    assert head == [compiler.value] + BaseArgs + (if IsX86(machine) then ["-C", IntelSyntax] else []);
    var translated, hasOpt := TranslateUserFlags(userFlags);
    command := command + translated;
    if !hasOpt {
      command := command + ["-C", OptPrefix + "0"];
    }
    command := command + ["-o", outputFile];
    command := command + [source];
    assert command == head + translated + (if hasOpt then [] else ["-C", OptPrefix + "0"]) + ["-o", outputFile, source];
    return Success(command);
  }

  /** The flag loop of `compile`: the arguments the user flags contribute, and whether any was `-O0`…`-O3`. */
  method TranslateUserFlags(userFlags: seq<string>) returns (args: seq<string>, hasOpt: bool)
    ensures args == TranslateFlags(userFlags)
    ensures hasOpt == HasOpt(userFlags)
  {
    args := [];
    hasOpt := false;
    var i := 0;
    while i < |userFlags|
      invariant 0 <= i <= |userFlags|
      invariant args == TranslateFlags(userFlags[..i])
      invariant hasOpt == HasOpt(userFlags[..i])
    {
      var flag := userFlags[i];
      OptFlagsAre(flag);
      TranslateStep(userFlags, i);
      if flag in OptFlags {
        var level := flag[|flag| - 1];
        args := args + ["-C", OptPrefix + [level]];
        hasOpt := true;
      } else if "-C" <= flag || "--" <= flag {
        args := args + [flag];
      }
      i := i + 1;
    }
    assert userFlags[..i] == userFlags;
  }

  // ---------------------------------------------------------------------------
  // Properties of the command line
  // ---------------------------------------------------------------------------

  /** Translation distributes over concatenation: flags are translated one by one, in order. */
  lemma {:induction false} TranslateAppend(a: seq<string>, b: seq<string>)
    ensures TranslateFlags(a + b) == TranslateFlags(a) + TranslateFlags(b)
    decreases |b|
  {
    if b == [] {
      assert a + b == a;
    } else {
      var ab := a + b;
      var b' := b[..|b| - 1];
      var last := b[|b| - 1];
      assert ab[..|ab| - 1] == a + b';
      assert ab[|ab| - 1] == last;
      assert TranslateFlags(ab) == TranslateFlags(a + b') + FlagArgs(last);
      assert TranslateFlags(b) == TranslateFlags(b') + FlagArgs(last);
      TranslateAppend(a, b');
    }
  }

  lemma TranslateSingle(flag: string)
    ensures TranslateFlags([flag]) == FlagArgs(flag)
  {
    assert [flag][..0] == [];
  }

  /** A flag that is neither `-O0`…`-O3` nor rustc-native leaves no trace in the command. */
  lemma DroppedFlag(a: seq<string>, flag: string, b: seq<string>)
    requires !IsOptFlag(flag) && !IsNative(flag)
    ensures TranslateFlags(a + [flag] + b) == TranslateFlags(a + b)
  {
    TranslateAppend(a + [flag], b);
    TranslateAppend(a, [flag]);
    TranslateSingle(flag);
    TranslateAppend(a, b);
  }

  lemma TranslatePair(a: string, b: string)
    ensures TranslateFlags([a, b]) == FlagArgs(a) + FlagArgs(b)
  {
    TranslateAppend([a], [b]);
    TranslateSingle(a);
    TranslateSingle(b);
    assert [a] + [b] == [a, b];
  }

  lemma TranslateTriple(a: string, b: string, c: string)
    ensures TranslateFlags([a, b, c]) == FlagArgs(a) + FlagArgs(b) + FlagArgs(c)
  {
    TranslateAppend([a, b], [c]);
    TranslatePair(a, b);
    TranslateSingle(c);
    assert [a, b] + [c] == [a, b, c];
  }

  /** `-O2` is translated, `-fverbose-asm` dropped and `--edition=2021` passed through. */
  lemma MixedFlagsExample()
    ensures TranslateFlags(["-O2", "-fverbose-asm", "--edition=2021"]) == ["-C", "opt-level=2", "--edition=2021"]
  {
    TranslateTriple("-O2", "-fverbose-asm", "--edition=2021");
    assert "-O2"[2] == '2';
    assert OptPrefix + "2" == "opt-level=2";
    assert FlagArgs("-O2") == ["-C", "opt-level=2"];
    assert "-fverbose-asm"[1] == 'f';
    assert FlagArgs("-fverbose-asm") == [];
    assert FlagArgs("--edition=2021") == ["--edition=2021"];
  }

  /** C++-only flags are silently dropped. */
  lemma CppFlagsDropped()
    ensures TranslateFlags(["-fverbose-asm", "-masm=intel"]) == []
  {
    TranslatePair("-fverbose-asm", "-masm=intel");
    assert "-fverbose-asm"[1] == 'f';
    assert FlagArgs("-fverbose-asm") == [];
    assert "-masm=intel"[1] == 'm';
    assert FlagArgs("-masm=intel") == [];
  }

  /** A codegen option given as two words keeps only the bare `-C`; its value is dropped. */
  lemma SplitCodegenFlag()
    ensures TranslateFlags(["-C", "target-cpu=native"]) == ["-C"]
  {
    TranslatePair("-C", "target-cpu=native");
    assert FlagArgs("-C") == ["-C"];
    assert "target-cpu=native"[0] == 't';
    assert FlagArgs("target-cpu=native") == [];
  }

  /** Every rustc-native user flag reaches the command verbatim. */
  lemma {:induction false} NativeFlagPassed(flags: seq<string>, i: nat)
    requires i < |flags| && IsNative(flags[i]) && !IsOptFlag(flags[i])
    ensures flags[i] in TranslateFlags(flags)
    decreases |flags|
  {
    var init := flags[..|flags| - 1];
    if i < |flags| - 1 {
      assert init[i] == flags[i];
      NativeFlagPassed(init, i);
    }
  }

  /** Every translated argument is `-C`, an `opt-level=N` for N in 0..3, or a native user flag. */
  lemma {:induction false} TranslatedArgs(flags: seq<string>)
    ensures forall k :: 0 <= k < |TranslateFlags(flags)| ==>
      var a := TranslateFlags(flags)[k];
      a == "-C" || (a in flags && IsNative(a)) ||
      (|a| == |OptPrefix| + 1 && OptPrefix <= a && '0' <= a[|OptPrefix|] <= '3')
    decreases |flags|
  {
    if flags != [] {
      var init := flags[..|flags| - 1];
      TranslatedArgs(init);
      forall k | 0 <= k < |TranslateFlags(init)| ensures TranslateFlags(init)[k] in flags || !(TranslateFlags(init)[k] in init) {
        if TranslateFlags(init)[k] in init {
          var j :| 0 <= j < |init| && init[j] == TranslateFlags(init)[k];
          assert flags[j] == init[j];
        }
      }
    }
  }

  /** The command starts with the compiler and the emit/debug-info arguments, and ends `-o output source`. */
  lemma CommandFrame(compiler: string, machine: string, flags: seq<string>, output: string, source: string)
    ensures var cmd := Command(compiler, machine, flags, output, source);
      && |cmd| >= 8
      && cmd[..5] == [compiler, "--emit", "asm", "-C", "debuginfo=2"]
      && cmd[|cmd| - 3..] == ["-o", output, source]
  {
  }

  /** A machine name whose lowercase form lacks `x`, `d` and `3` is not x86. */
  lemma NotX86(machine: string)
    requires var arch := Lower(machine); 'x' !in arch && 'd' !in arch && '3' !in arch
    ensures !IsX86(machine)
  {
    var arch := Lower(machine);
    Absent(arch, X86Names[0], 0);
    Absent(arch, X86Names[1], 0);
    Absent(arch, X86Names[2], 2);
    Absent(arch, X86Names[3], 1);
  }

  /** A lowercase name without `x`, `d` and `3` is not x86. */
  lemma LowercaseNotX86(machine: string)
    requires forall i :: 0 <= i < |machine| ==> !IsUpper(machine[i])
    requires 'x' !in machine && 'd' !in machine && '3' !in machine
    ensures !IsX86(machine)
  {
    assert Lower(machine) == machine;
    NotX86(machine);
  }

  lemma Arm64NotX86()
    ensures !IsX86("arm64")
  {
    LowercaseNotX86("arm64");
  }

  lemma Aarch64NotX86()
    ensures !IsX86("aarch64")
  {
    LowercaseNotX86("aarch64");
  }

  /** The test is on the lowercased name: `AMD64` is x86. */
  lemma Amd64IsX86()
    ensures IsX86("AMD64")
  {
    assert Lower("AMD64") == "amd64";
    assert X86Names[2] <= "amd64";
  }

  lemma X86_64IsX86()
    ensures IsX86("x86_64")
  {
    assert Lower("x86_64") == "x86_64";
    assert X86Names[0] <= "x86_64";
  }

  /** The arguments between the compiler and `-o`. */
  lemma CommandMiddle(compiler: string, machine: string, flags: seq<string>, output: string, source: string)
    ensures var cmd := Command(compiler, machine, flags, output, source);
      && |cmd| >= 8
      && cmd[1..|cmd| - 3] ==
        BaseArgs + (if IsX86(machine) then ["-C", IntelSyntax] else []) + TranslateFlags(flags)
        + (if HasOpt(flags) then [] else ["-C", OptPrefix + "0"])
  {
  }

  /** No translated argument is the Intel-syntax request. */
  lemma TranslatedNotIntel(flags: seq<string>)
    ensures IntelSyntax !in TranslateFlags(flags)
  {
    TranslatedArgs(flags);
    var t := TranslateFlags(flags);
    forall k | 0 <= k < |t| ensures t[k] != IntelSyntax {
      assert IntelSyntax[0] == 'l';
    }
  }

  /**
    Intel syntax is requested, right after the base arguments, exactly on x86
    machines: otherwise no argument before `-o` (the compiler path aside) asks for it.
  */
  lemma IntelSyntaxIff(compiler: string, machine: string, flags: seq<string>, output: string, source: string)
    ensures var cmd := Command(compiler, machine, flags, output, source);
      && (IsX86(machine) ==> cmd[5..7] == ["-C", IntelSyntax])
      && (!IsX86(machine) ==> IntelSyntax !in cmd[1..|cmd| - 3])
  {
    CommandMiddle(compiler, machine, flags, output, source);
    if !IsX86(machine) {
      TranslatedNotIntel(flags);
      assert IntelSyntax !in BaseArgs;
    }
  }

  /** The `opt-level=` arguments among `args`, in order. */
  function OptArgs(args: seq<string>): seq<string>
    decreases |args|
  {
    if args == [] then []
    else OptArgs(args[..|args| - 1]) + (if OptPrefix <= args[|args| - 1] then [args[|args| - 1]] else [])
  }

  /** The levels the user asked for, in order. */
  function UserLevels(flags: seq<string>): seq<string>
    decreases |flags|
  {
    if flags == [] then []
    else
      var last := flags[|flags| - 1];
      UserLevels(flags[..|flags| - 1]) + (if IsOptFlag(last) then [OptLevel(last)] else [])
  }

  lemma {:induction false} OptArgsAppend(a: seq<string>, b: seq<string>)
    ensures OptArgs(a + b) == OptArgs(a) + OptArgs(b)
    decreases |b|
  {
    if b == [] {
      assert a + b == a;
    } else {
      var b' := b[..|b| - 1];
      assert (a + b)[..|a + b| - 1] == a + b';
      OptArgsAppend(a, b');
    }
  }

  lemma {:induction false} OptArgsOfFlags(flags: seq<string>)
    ensures OptArgs(TranslateFlags(flags)) == UserLevels(flags)
    decreases |flags|
  {
    if flags != [] {
      var init := flags[..|flags| - 1];
      var last := flags[|flags| - 1];
      OptArgsOfFlags(init);
      OptArgsAppend(TranslateFlags(init), FlagArgs(last));
      if IsOptFlag(last) {
        OptArgsAppend(["-C"], [OptLevel(last)]);
        assert OptArgs([OptLevel(last)]) == [OptLevel(last)] by {
          assert [OptLevel(last)][..0] == [];
        }
        assert OptArgs(["-C"]) == [] by {
          assert ["-C"][..0] == [];
        }
      } else if IsNative(last) {
        var one: seq<string> := [last];
        assert OptArgs(one) == [] by {
          assert one[..0] == [];
          assert last[0] == '-';
        }
      }
    }
  }

  lemma {:induction false} UserLevelsIff(flags: seq<string>)
    ensures UserLevels(flags) != [] <==> HasOpt(flags)
    decreases |flags|
  {
    if flags != [] {
      var init := flags[..|flags| - 1];
      UserLevelsIff(init);
      TranslateStep(flags, |flags| - 1);
      assert flags[..|flags| - 1] == init;
      assert flags[..|flags|] == flags;
    }
  }

  lemma HeadOptArgs(machine: string)
    ensures OptArgs(BaseArgs + (if IsX86(machine) then ["-C", IntelSyntax] else [])) == []
  {
    var args := BaseArgs + (if IsX86(machine) then ["-C", IntelSyntax] else []);
    forall k | 0 <= k < |args| ensures !(OptPrefix <= args[k]) {
      assert args[k][0] != 'o' || args[k][1] != 'p';
    }
    NoOptArgs(args);
  }

  lemma {:induction false} NoOptArgs(args: seq<string>)
    requires forall k :: 0 <= k < |args| ==> !(OptPrefix <= args[k])
    ensures OptArgs(args) == []
    decreases |args|
  {
    if args != [] {
      NoOptArgs(args[..|args| - 1]);
    }
  }

  lemma DefaultOptArgs()
    ensures OptArgs(["-C", OptPrefix + "0"]) == [OptPrefix + "0"]
  {
    var d := ["-C", OptPrefix + "0"];
    var c := d[..1];
    assert c == ["-C"];
    assert OptArgs(c) == [] by {
      assert c[..0] == [];
      assert !(OptPrefix <= c[0]);
    }
    assert OptPrefix <= d[1];
  }

  /**
    The command asks for optimisation levels exactly as the user did, in
    order; with no `-O0`…`-O3` flag it asks for `opt-level=0`, once.
  */
  lemma OptLevelsOfCommand(compiler: string, machine: string, flags: seq<string>, output: string, source: string)
    ensures var cmd := Command(compiler, machine, flags, output, source);
      OptArgs(cmd[1..|cmd| - 3]) == if HasOpt(flags) then UserLevels(flags) else [OptPrefix + "0"]
  {
    var h := BaseArgs + (if IsX86(machine) then ["-C", IntelSyntax] else []);
    var t := TranslateFlags(flags);
    var d: seq<string> := if HasOpt(flags) then [] else ["-C", OptPrefix + "0"];
    CommandMiddle(compiler, machine, flags, output, source);
    HeadOptArgs(machine);
    OptArgsOfFlags(flags);
    UserLevelsIff(flags);
    OptArgsAppend(h, t);
    OptArgsAppend(h + t, d);
    if !HasOpt(flags) {
      DefaultOptArgs();
    }
  }

  // ---------------------------------------------------------------------------
  // The llvm-mca sanitiser
  // ---------------------------------------------------------------------------

  /** `_RE_EMPTY_OR_COMMENT.match(line)`: only whitespace, or a `;` comment after it. */
  predicate EmptyOrComment(line: string) {
    var t := LStrip(line);
    t == [] || t[0] == ';'
  }

  /** `[\w$.]`: a character that may continue a label. */
  predicate IsLabelChar(c: char) {
    IsWordChar(c) || c == '$' || c == '.'
  }

  /** `[a-zA-Z_]`: a character that may start a label. */
  predicate IsLabelStart(c: char) {
    IsLetter(c) || c == '_'
  }

  /** Length of the longest prefix of `s` made of label characters. */
  function LabelSpan(s: string): (n: nat)
    ensures n <= |s|
    ensures forall i :: 0 <= i < n ==> IsLabelChar(s[i])
    ensures n < |s| ==> !IsLabelChar(s[n])
  {
    if s == [] || !IsLabelChar(s[0]) then 0 else 1 + LabelSpan(s[1..])
  }

  /** `[a-zA-Z_][\w$.]*:` at the start of `t`: the greedy run of label characters ends in a colon. */
  predicate LabelAt(t: string) {
    t != [] && IsLabelStart(t[0]) &&
    var n := 1 + LabelSpan(t[1..]);
    n < |t| && t[n] == ':'
  }

  /** `_RE_MCA_NOISE.match(line)`: after whitespace, a directive's dot or a label. */
  predicate McaNoise(line: string) {
    var t := LStrip(line);
    (t != [] && t[0] == '.') || LabelAt(t)
  }

  /** A line the sanitiser passes on to llvm-mca. */
  predicate IsInstruction(line: string) {
    !EmptyOrComment(line) && !McaNoise(line)
  }

  /** The instruction lines, in input order. */
  function Sanitize(lines: seq<string>): seq<string>
    decreases |lines|
  {
    if lines == [] then []
    else
      var last := lines[|lines| - 1];
      Sanitize(lines[..|lines| - 1]) + (if IsInstruction(last) then [last] else [])
  }

  lemma SanitizeStep(lines: seq<string>, i: nat)
    requires i < |lines|
    ensures Sanitize(lines[..i + 1]) == Sanitize(lines[..i]) + (if IsInstruction(lines[i]) then [lines[i]] else [])
  {
    assert lines[..i + 1][..i] == lines[..i];
  }

  /**
    The sanitising half of `analyze_perf`: the text piped to llvm-mca, or the
    error returned, before any tool lookup, when no instruction survives.
  */
  method McaInput(asmLines: seq<string>) returns (r: Result<string, string>)
    ensures Sanitize(asmLines) == [] ==> r == Failure(NoInstructionsError)
    ensures Sanitize(asmLines) != [] ==> r == Success(Join(Sanitize(asmLines), "\n"))
  {
    var sanitizedLines: seq<string> := [];
    var i := 0;
    while i < |asmLines|
      invariant 0 <= i <= |asmLines|
      invariant sanitizedLines == Sanitize(asmLines[..i])
    {
      var line := asmLines[i];
      SanitizeStep(asmLines, i);
      i := i + 1;
      if EmptyOrComment(line) {
        continue;
      }
      if McaNoise(line) {
        continue;
      }
      sanitizedLines := sanitizedLines + [line];
    }
    assert asmLines[..i] == asmLines;
    if sanitizedLines == [] {
      return Failure(NoInstructionsError);
    }
    return Success(Join(sanitizedLines, "\n"));
  }

  // ---------------------------------------------------------------------------
  // Properties of the sanitiser
  // ---------------------------------------------------------------------------

  /**
    The greedy reading of the label pattern is the regular expression's own:
    some run of label characters after the first one is followed by a colon.
  */
  lemma LabelAtIff(t: string)
    ensures LabelAt(t) <==>
      exists n :: 1 <= n < |t| && IsLabelStart(t[0]) && t[n] == ':' &&
        forall i :: 1 <= i < n ==> IsLabelChar(t[i])
  {
    if t != [] && IsLabelStart(t[0]) {
      var m := 1 + LabelSpan(t[1..]);
      forall n | 1 <= n < |t| && t[n] == ':' && (forall i :: 1 <= i < n ==> IsLabelChar(t[i]))
        ensures n == m
      {
        var u := t[1..];
        forall i | 0 <= i < n - 1 ensures IsLabelChar(u[i]) {
          assert u[i] == t[i + 1];
        }
        assert u[n - 1] == ':';
        LabelSpanOf(u, n - 1);
      }
      if m < |t| && t[m] == ':' {
        forall i | 1 <= i < m ensures IsLabelChar(t[i]) {
          assert t[1..][i - 1] == t[i];
        }
      }
    }
  }

  /** Sanitising distributes over concatenation: survivors keep their relative order. */
  lemma {:induction false} SanitizeAppend(a: seq<string>, b: seq<string>)
    ensures Sanitize(a + b) == Sanitize(a) + Sanitize(b)
    decreases |b|
  {
    if b == [] {
      assert a + b == a;
    } else {
      var b' := b[..|b| - 1];
      assert (a + b)[..|a + b| - 1] == a + b';
      SanitizeAppend(a, b');
    }
  }

  /** Every line passed on is an input line that is an instruction. */
  lemma {:induction false} SanitizeSound(lines: seq<string>)
    ensures forall k :: 0 <= k < |Sanitize(lines)| ==> Sanitize(lines)[k] in lines && IsInstruction(Sanitize(lines)[k])
    decreases |lines|
  {
    if lines != [] {
      var init := lines[..|lines| - 1];
      SanitizeSound(init);
      forall k | 0 <= k < |Sanitize(init)| ensures Sanitize(init)[k] in lines {
        assert Sanitize(init)[k] in init;
      }
    }
  }

  /** Every instruction line of the input is passed on. */
  lemma {:induction false} SanitizeComplete(lines: seq<string>)
    ensures forall k :: 0 <= k < |lines| && IsInstruction(lines[k]) ==> lines[k] in Sanitize(lines)
    decreases |lines|
  {
    if lines != [] {
      var init := lines[..|lines| - 1];
      SanitizeComplete(init);
      forall k | 0 <= k < |lines| && IsInstruction(lines[k]) ensures lines[k] in Sanitize(lines) {
        if k < |lines| - 1 {
          assert lines[k] == init[k];
        }
      }
    }
  }

  lemma SanitizeSingle(line: string)
    ensures Sanitize([line]) == if IsInstruction(line) then [line] else []
  {
    assert [line][..0] == [];
  }

  /** Sanitising twice is sanitising once. */
  lemma {:induction false} SanitizeIdempotent(lines: seq<string>)
    ensures Sanitize(Sanitize(lines)) == Sanitize(lines)
    decreases |lines|
  {
    if lines != [] {
      var init := lines[..|lines| - 1];
      var last := lines[|lines| - 1];
      SanitizeIdempotent(init);
      SanitizeAppend(Sanitize(init), if IsInstruction(last) then [last] else []);
      if IsInstruction(last) {
        SanitizeSingle(last);
      }
    }
  }

  /** The error is returned exactly when no input line is an instruction. */
  lemma NoInstructionsIff(lines: seq<string>)
    ensures Sanitize(lines) == [] <==> forall k :: 0 <= k < |lines| ==> !IsInstruction(lines[k])
  {
    SanitizeSound(lines);
    SanitizeComplete(lines);
    if Sanitize(lines) != [] {
      assert Sanitize(lines)[0] in lines;
    }
  }

  /** Indentation does not change whether a line is an instruction. */
  lemma IndentedInstruction(w: string, line: string)
    requires IsBlank(w)
    ensures IsInstruction(w + line) == IsInstruction(line)
  {
    LStripBlankPrefix(w, line);
  }

  /** A mnemonic made of letters, followed by whitespace or nothing, is an instruction. */
  lemma MnemonicLine(w: string, m: string, rest: string)
    requires IsBlank(w) && m != [] && forall i :: 0 <= i < |m| ==> IsLetter(m[i])
    requires rest == [] || IsSpace(rest[0])
    ensures IsInstruction(w + m + rest)
  {
    var t := m + rest;
    assert t[0] == m[0];
    LStripKeeps(t);
    MnemonicNotLabel(m, rest);
    assert IsInstruction(t);
    assert w + m + rest == w + t;
    IndentedInstruction(w, t);
  }

  /** A run of letters ended by whitespace or the end of the line is not a label. */
  lemma MnemonicNotLabel(m: string, rest: string)
    requires m != [] && forall i :: 0 <= i < |m| ==> IsLetter(m[i])
    requires rest == [] || IsSpace(rest[0])
    ensures !LabelAt(m + rest)
  {
    var t := m + rest;
    var u := t[1..];
    forall i | 0 <= i < |m| - 1 ensures IsLabelChar(u[i]) {
      assert u[i] == m[i + 1];
    }
    if |m| - 1 < |u| {
      assert u[|m| - 1] == rest[0];
    }
    LabelSpanOf(u, |m| - 1);
    if |m| < |t| {
      assert t[|m|] == rest[0];
    }
  }

  /** A line that does not start with whitespace is its own left-stripped form. */
  lemma LStripKeeps(t: string)
    requires t != [] && !IsSpace(t[0])
    ensures LStrip(t) == t
  {
  }

  /** The span of label characters is `n` when the first `n` are and the next is not. */
  lemma LabelSpanOf(s: string, n: nat)
    requires n <= |s| && forall i :: 0 <= i < n ==> IsLabelChar(s[i])
    requires n < |s| ==> !IsLabelChar(s[n])
    ensures LabelSpan(s) == n
  {
    var m := LabelSpan(s);
  }

  /** A label name directly followed by a colon is matched by the label pattern. */
  lemma LabelAtName(name: string, rest: string)
    requires name != [] && IsLabelStart(name[0])
    requires forall i :: 1 <= i < |name| ==> IsLabelChar(name[i])
    ensures LabelAt(name + ":" + rest)
  {
    var t := name + ":" + rest;
    var u := t[1..];
    forall i | 0 <= i < |name| - 1 ensures IsLabelChar(u[i]) {
      assert u[i] == name[i + 1];
    }
    assert u[|name| - 1] == ':';
    LabelSpanOf(u, |name| - 1);
    assert t[|name|] == ':';
  }

  /** A label name directly followed by a colon, however indented, is dropped. */
  lemma LabelLine(w: string, name: string, rest: string)
    requires IsBlank(w) && name != [] && IsLabelStart(name[0])
    requires forall i :: 1 <= i < |name| ==> IsLabelChar(name[i])
    ensures !IsInstruction(w + name + ":" + rest)
  {
    var t := name + ":" + rest;
    assert t[0] == name[0];
    LStripKeeps(t);
    LabelAtName(name, rest);
    assert McaNoise(t);
    assert w + name + ":" + rest == w + t;
    IndentedInstruction(w, t);
  }

  /** A directive, however indented, is dropped. */
  lemma DirectiveLine(w: string, rest: string)
    requires IsBlank(w)
    ensures !IsInstruction(w + "." + rest)
  {
    var t := "." + rest;
    assert w + "." + rest == w + t;
    LStripKeeps(t);
    assert McaNoise(t);
    IndentedInstruction(w, t);
  }

  /** A `;` comment, however indented, is dropped. */
  lemma CommentLine(w: string, rest: string)
    requires IsBlank(w)
    ensures !IsInstruction(w + ";" + rest)
  {
    var t := ";" + rest;
    assert w + ";" + rest == w + t;
    LStripKeeps(t);
    assert EmptyOrComment(t);
    IndentedInstruction(w, t);
  }

  /** Labels, directives and comments never reach llvm-mca. */
  lemma MainLabelDropped()
    ensures !IsInstruction("main:")
  {
    LabelLine("", "main", "");
    assert "" + "main" + ":" + "" == "main:";
  }

  lemma BlockLabelDropped()
    ensures !IsInstruction("LBB0_1:")
  {
    var name := "LBB0_1";
    assert forall i :: 1 <= i < |name| ==> IsLabelChar(name[i]);
    LabelLine("", name, "");
    assert "" + name + ":" + "" == "LBB0_1:";
  }

  lemma SectionDirectiveDropped()
    ensures !IsInstruction("  .section .text")
  {
    var line := "  .section .text";
    var rest := line[3..];
    assert line == "  " + "." + rest;
    DirectiveLine("  ", rest);
  }

  lemma CommentDropped()
    ensures !IsInstruction("  ; prologue")
  {
    var line := "  ; prologue";
    var rest := line[3..];
    assert line == "  " + ";" + rest;
    CommentLine("  ", rest);
  }

  lemma SanitizePair(a: string, b: string)
    requires IsInstruction(a) && IsInstruction(b)
    ensures Sanitize([a, b]) == [a, b]
  {
    SanitizeAppend([a], [b]);
    SanitizeSingle(a);
    SanitizeSingle(b);
    assert [a] + [b] == [a, b];
  }

  lemma PushIsInstruction()
    ensures IsInstruction("push rbp")
  {
    assert "push" + " rbp" == "push rbp";
    MnemonicNotLabel("push", " rbp");
    LStripKeeps("push rbp");
  }

  lemma RetIsInstruction()
    ensures IsInstruction("ret")
  {
    assert "ret" + "" == "ret";
    MnemonicNotLabel("ret", "");
    LStripKeeps("ret");
  }

  /** `push rbp` and `ret` both reach llvm-mca. */
  lemma PushRetPassed()
    ensures Sanitize(["push rbp", "ret"]) == ["push rbp", "ret"]
  {
    PushIsInstruction();
    RetIsInstruction();
    SanitizePair("push rbp", "ret");
  }
}
