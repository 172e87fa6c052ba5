/** Worked examples of the Rust noise classifiers, taken from their documented behaviour. */
module RustLexerExamples {
  import opened TextUtil
  import opened RustLexer

  // Lines. A section name is ruled out of a line by one of its characters
  // that the line lacks; a label, by the line's first two characters.

  /** `.section .note.rustc` is noise. */
  lemma NoteSectionIsNoise()
    ensures IsRustNoiseLine("  .section .note.rustc")
  {
    var line := "  .section .note.rustc";
    assert line == "  .section " + SectionNames[1] + "";
    ContainsMiddle("  .section ", SectionNames[1], "");
    NoiseLineIff(line);
  }

  /** `.LBB0_1` at the head of a line is noise. */
  lemma BlockLabelIsNoise()
    ensures IsRustNoiseLine("  .LBB0_1")
  {
    var line := "  .LBB0_1";
    assert line == "  " + ".LBB0_1";
    LStripAfterBlank("  ", ".LBB0_1");
    assert DigitAfter(".LBB0_1", LabelPrefixes[3]);
    NoiseLineIff(line);
  }

  /**
    Text lacking `r` and `d`, one character of `.note.gnu` and one of
    `.comment` names no section.
  */
  lemma NoSectionName(s: string, i: nat, j: nat)
    requires i < |SectionNames[0]| && SectionNames[0][i] !in s
    requires j < |SectionNames[3]| && SectionNames[3][j] !in s
    requires 'r' !in s && 'd' !in s
    ensures forall k :: 0 <= k < |SectionNames| ==> !Contains(s, SectionNames[k])
  {
    Absent(s, SectionNames[0], i);
    Absent(s, SectionNames[1], 6);
    Absent(s, SectionNames[2], 1);
    Absent(s, SectionNames[3], j);
    Absent(s, SectionNames[4], 1);
  }

  /** A line whose text starts with other than `.L` and names no section is not noise. */
  lemma PlainLineNotNoise(line: string, w: string, t: string)
    requires line == w + t && IsBlank(w) && t != [] && !IsSpace(t[0])
    requires |t| < 2 || t[0] != '.' || t[1] != 'L'
    requires forall k :: 0 <= k < |SectionNames| ==> !Contains(line, SectionNames[k])
    ensures !IsRustNoiseLine(line)
  {
    LStripAfterBlank(w, t);
    LabelOnlyAtHead(line);
    assert !exists k :: 0 <= k < |SectionNames| && Contains(line, SectionNames[k]);
    NoiseLineIff(line);
  }

  lemma OperandLabelSections()
    ensures forall k :: 0 <= k < |SectionNames| ==> !Contains("  jne .LBB0_1", SectionNames[k])
  {
    var line := "  jne .LBB0_1";
    assert 'o' !in line && 'r' !in line && 'd' !in line;
    NoSectionName(line, 2, 2);
  }

  /** The same label as an operand, `jne .LBB0_1`, is not noise. */
  lemma OperandLabelNotNoise()
    ensures !IsRustNoiseLine("  jne .LBB0_1")
  {
    OperandLabelSections();
    PlainLineNotNoise("  jne .LBB0_1", "  ", "jne .LBB0_1");
  }

  lemma TextSectionSections()
    ensures forall k :: 0 <= k < |SectionNames| ==> !Contains("  .section .text", SectionNames[k])
  {
    var line := "  .section .text";
    assert 'g' !in line && 'm' !in line && 'r' !in line && 'd' !in line;
    NoSectionName(line, 6, 3);
  }

  /** `.section .text` is not noise. */
  lemma TextSectionNotNoise()
    ensures !IsRustNoiseLine("  .section .text")
  {
    TextSectionSections();
    PlainLineNotNoise("  .section .text", "  ", ".section .text");
  }

  lemma GloblSections()
    ensures forall k :: 0 <= k < |SectionNames| ==> !Contains("  .globl main", SectionNames[k])
  {
    var line := "  .globl main";
    assert 'u' !in line && 'c' !in line && 'r' !in line && 'd' !in line;
    NoSectionName(line, 8, 1);
  }

  /** `.globl main` is not noise. */
  lemma GloblNotNoise()
    ensures !IsRustNoiseLine("  .globl main")
  {
    GloblSections();
    PlainLineNotNoise("  .globl main", "  ", ".globl main");
  }

  /** A function label such as `main:` is not noise. */
  lemma UserLabelNotNoise()
    ensures !IsRustNoiseLine("main:")
  {
    var line := "main:";
    assert '.' !in line;
    forall k | 0 <= k < |SectionNames| ensures !Contains(line, SectionNames[k]) {
      Absent(line, SectionNames[k], 0);
    }
    PlainLineNotNoise(line, [], line);
  }

  // Symbols. Every panic name holds an `n`; every allocator name starts
  // with `__` and holds `u`, `d` or `g` right after `__r`.

  /** The allocator shim `__rdl_alloc` is noise. */
  lemma AllocShimIsNoise()
    ensures IsRustNoiseSymbol("__rdl_alloc")
  {
    assert InternalNames[5] <= "__rdl_alloc";
    assert Contains("__rdl_alloc", RuntimeNames[5]);
    NoiseSymbolIff("__rdl_alloc");
  }

  /** `core::panic::panic_fmt` is noise. */
  lemma PanicIsNoise()
    ensures IsRustNoiseSymbol("core::panic::panic_fmt")
  {
    assert PanicNames[2] <= "core::panic::panic_fmt";
    assert Contains("core::panic::panic_fmt", RuntimeNames[9]);
    NoiseSymbolIff("core::panic::panic_fmt");
  }

  /** A symbol without an `n` that names no allocator shim is not noise. */
  lemma WithoutN(s: string)
    requires 'n' !in s
    ensures forall k :: 0 <= k < |PanicNames| ==> !Contains(s, PanicNames[k])
  {
    forall k | 0 <= k < |PanicNames| ensures !Contains(s, PanicNames[k]) {
      var i := if k == 1 then 7 else if k == 3 then 9 else 8;
      assert PanicNames[k][i] == 'n';
      Absent(s, PanicNames[k], i);
    }
  }

  lemma NoiseFreeSymbol(s: string)
    requires 'n' !in s
    requires forall k :: 0 <= k < |InternalNames| ==> !Contains(s, InternalNames[k])
    ensures !IsRustNoiseSymbol(s)
  {
    WithoutN(s);
    SearchIff(s, InternalNames);
    SearchIff(s, PanicNames);
  }

  /** A symbol without `_` or `n` is not noise. */
  lemma PlainSymbolNotNoise(s: string)
    requires '_' !in s && 'n' !in s
    ensures !IsRustNoiseSymbol(s)
  {
    forall k | 0 <= k < |InternalNames| ensures !Contains(s, InternalNames[k]) {
      Absent(s, InternalNames[k], 0);
    }
    NoiseFreeSymbol(s);
  }

  /** Library paths that are not runtime internals are not noise. */
  lemma VecPathNotNoise()
    ensures !IsRustNoiseSymbol("std::vec::Vec")
  {
    var s := "std::vec::Vec";
    assert '_' !in s && 'n' !in s;
    PlainSymbolNotNoise(s);
  }

  lemma IteratorPathNotNoise()
    ensures !IsRustNoiseSymbol("core::iter::Iterator")
  {
    var s := "core::iter::Iterator";
    assert '_' !in s && 'n' !in s;
    PlainSymbolNotNoise(s);
  }

  /** The C++ runtime's `__cxa_throw` is not noise. */
  lemma CxaThrowNotNoise()
    ensures !IsRustNoiseSymbol("__cxa_throw")
  {
    var s := "__cxa_throw";
    assert 'n' !in s && 'u' !in s && 'd' !in s && 'g' !in s;
    forall k | 0 <= k < |InternalNames| ensures !Contains(s, InternalNames[k]) {
      Absent(s, InternalNames[k], 3);
    }
    NoiseFreeSymbol(s);
  }

  /** A symbol with no `__` in it names no allocator shim. */
  lemma WithoutDoubleUnderscore(s: string)
    requires 'n' !in s
    requires forall j :: 0 <= j < |s| - 1 ==> !(s[j] == '_' && s[j + 1] == '_')
    ensures !IsRustNoiseSymbol(s)
  {
    forall k | 0 <= k < |InternalNames| ensures !Contains(s, InternalNames[k]) {
      PairAbsent(s, InternalNames[k], 0);
    }
    NoiseFreeSymbol(s);
  }

  /** Without the leading `__`, `rust_alloc` is not noise. */
  lemma RustAllocNotNoise()
    ensures !IsRustNoiseSymbol("rust_alloc")
  {
    var s := "rust_alloc";
    assert 'n' !in s;
    WithoutDoubleUnderscore(s);
  }

  /** A user function named `my_rust_allocator` is not noise. */
  lemma UserAllocatorNotNoise()
    ensures !IsRustNoiseSymbol("my_rust_allocator")
  {
    var s := "my_rust_allocator";
    assert 'n' !in s;
    WithoutDoubleUnderscore(s);
  }
}
