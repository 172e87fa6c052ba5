/**
  The Rust noise classifiers that supplement the assembly line filter:
  a line is noise when its stripped text names one of rustc's bookkeeping
  sections anywhere, or starts with an LLVM-generated local label followed by
  a digit; a symbol is runtime-internal when it names the allocator shims or
  the panic machinery anywhere.

  The four regular expressions are alternations of literal words, so each is
  modelled by its list of words: `re.search` of the group is `Search`, which
  scans the text from the left and tries every word at every position.
*/
module RustLexer {
  import opened TextUtil

  /** Allocator and runtime shims: the group of `RE_RUST_INTERNAL`. */
  const InternalNames: seq<string> := [
    "__rust_alloc", "__rust_dealloc", "__rust_realloc", "__rust_alloc_zeroed",
    "__rust_alloc_error_handler", "__rdl_", "__rg_"
  ]

  /** Panic infrastructure: the group of `RE_RUST_PANIC`. */
  const PanicNames: seq<string> := [
    "core::panicking", "std::panicking", "core::panic", "rust_begin_unwind"
  ]

  /** Local labels: `RE_RUST_LABELS` is one of these, then at least one digit. */
  const LabelPrefixes: seq<string> := [".Ltmp", ".Lfunc_end", ".Lfunc_begin", ".LBB"]

  /** Section names: `RE_RUST_SECTIONS`, the leading dot included. */
  const SectionNames: seq<string> := [".note.gnu", ".note.rustc", ".rustc", ".comment", ".debug_"]

  // ---------------------------------------------------------------------------
  // Searching for a group of words
  // ---------------------------------------------------------------------------

  /** The group `(w0|w1|…)` matches at the start of `s`. */
  predicate StartsWithAny(s: string, words: seq<string>)
    decreases |words|
  {
    words != [] && (words[0] <= s || StartsWithAny(s, words[1..]))
  }

  /** `re.search` of the group: the match is tried at each position, left to right. */
  predicate Search(s: string, words: seq<string>)
    decreases |s|
  {
    StartsWithAny(s, words) || (s != [] && Search(s[1..], words))
  }

  lemma {:induction false} StartsWithAnyIff(s: string, words: seq<string>)
    ensures StartsWithAny(s, words) <==> exists k :: 0 <= k < |words| && words[k] <= s
    decreases |words|
  {
    if words != [] {
      StartsWithAnyIff(s, words[1..]);
      if exists k :: 0 <= k < |words| && words[k] <= s {
        var k :| 0 <= k < |words| && words[k] <= s;
        if k > 0 {
          assert words[1..][k - 1] == words[k];
        }
      }
      if StartsWithAny(s, words[1..]) {
        var k :| 0 <= k < |words| - 1 && words[1..][k] <= s;
        assert words[k + 1] <= s;
      }
    }
  }

  /** The search finds a match exactly when some word occurs in the text. */
  lemma {:induction false} SearchIff(s: string, words: seq<string>)
    ensures Search(s, words) <==> exists k :: 0 <= k < |words| && Contains(s, words[k])
    decreases |s|
  {
    StartsWithAnyIff(s, words);
    if s != [] {
      SearchIff(s[1..], words);
    }
    if Search(s, words) {
      if StartsWithAny(s, words) {
        var k :| 0 <= k < |words| && words[k] <= s;
        assert Contains(s, words[k]);
      } else {
        var k :| 0 <= k < |words| && Contains(s[1..], words[k]);
        assert Contains(s, words[k]);
      }
    }
    if exists k :: 0 <= k < |words| && Contains(s, words[k]) {
      var k :| 0 <= k < |words| && Contains(s, words[k]);
      if !(words[k] <= s) {
        assert Contains(s[1..], words[k]);
      }
    }
  }

  /** Searching for either of two groups is searching for their union. */
  lemma SearchEither(s: string, a: seq<string>, b: seq<string>)
    ensures (Search(s, a) || Search(s, b)) <==>
      exists k :: 0 <= k < |a + b| && Contains(s, (a + b)[k])
  {
    SearchIff(s, a);
    SearchIff(s, b);
    SearchIff(s, a + b);
    if Search(s, a + b) {
      var k :| 0 <= k < |a + b| && Contains(s, (a + b)[k]);
      if k < |a| {
        assert (a + b)[k] == a[k];
      } else {
        assert (a + b)[k] == b[k - |a|];
      }
    }
    if Search(s, a) {
      var k :| 0 <= k < |a| && Contains(s, a[k]);
      assert (a + b)[k] == a[k];
    }
    if Search(s, b) {
      var k :| 0 <= k < |b| && Contains(s, b[k]);
      assert (a + b)[|a| + k] == b[k];
    }
  }

  /** Words without whitespace are found in the stripped text exactly when in the text. */
  lemma SearchStrip(s: string, words: seq<string>)
    requires forall k :: 0 <= k < |words| ==> words[k] != [] && SpaceFree(words[k])
    ensures Search(Strip(s), words) <==> exists k :: 0 <= k < |words| && Contains(s, words[k])
  {
    SearchIff(Strip(s), words);
    forall k | 0 <= k < |words|
      ensures Contains(Strip(s), words[k]) <==> Contains(s, words[k])
    {
      ContainsStrip(s, words[k]);
    }
  }

  /** A group that nothing matches at the start of the empty text is not found there. */
  lemma SearchEmpty(words: seq<string>)
    requires forall k :: 0 <= k < |words| ==> words[k] != []
    ensures !Search([], words)
  {
    SearchIff([], words);
    forall k | 0 <= k < |words| ensures !Contains([], words[k]) {
      assert !(words[k] <= []);
    }
  }

  // ---------------------------------------------------------------------------
  // `is_rust_noise_line`
  // ---------------------------------------------------------------------------

  /** The text starts with the label prefix `p` and a decimal digit after it. */
  predicate DigitAfter(u: string, p: string) {
    p <= u && |p| < |u| && IsDigit(u[|p|])
  }

  /** Some prefix of the group, followed by a digit, starts `u`. */
  predicate LabelMatch(u: string, prefixes: seq<string>) {
    exists k :: 0 <= k < |prefixes| && DigitAfter(u, prefixes[k])
  }

  /** `RE_RUST_LABELS.match(t)`: after leading whitespace, a label prefix and a digit. */
  predicate LabelAtStart(t: string) {
    LabelMatch(LStrip(t), LabelPrefixes)
  }

  predicate IsRustNoiseLine(line: string) {
    var stripped := Strip(line);
    Search(stripped, SectionNames) || LabelAtStart(stripped)
  }

  lemma SectionNamesSpaceFree()
    ensures forall k :: 0 <= k < |SectionNames| ==> SectionNames[k] != [] && SpaceFree(SectionNames[k])
  {
  }

  /** A prefix followed by a digit survives the removal of trailing whitespace. */
  lemma DigitAfterRStrip(u: string, p: string)
    ensures DigitAfter(RStrip(u), p) <==> DigitAfter(u, p)
  {
    var r := RStrip(u);
    if DigitAfter(u, p) && |r| <= |p| {
      assert false;
    }
  }

  lemma LabelMatchRStrip(u: string, prefixes: seq<string>)
    ensures LabelMatch(RStrip(u), prefixes) <==> LabelMatch(u, prefixes)
  {
    forall k | 0 <= k < |prefixes| ensures DigitAfter(RStrip(u), prefixes[k]) <==> DigitAfter(u, prefixes[k]) {
      DigitAfterRStrip(u, prefixes[k]);
    }
  }

  /**
    A line is noise exactly when a section name occurs anywhere in it, or its
    text after the indentation starts with a local label and a digit; the
    stripping in the source changes neither test.
  */
  lemma NoiseLineIff(line: string)
    ensures IsRustNoiseLine(line) <==>
      (exists k :: 0 <= k < |SectionNames| && Contains(line, SectionNames[k])) || LabelAtStart(line)
  {
    SectionNamesSpaceFree();
    SearchStrip(line, SectionNames);
    var u := LStrip(line);
    var r := RStrip(u);
    assert Strip(line) == r;
    assert LStrip(r) == r by {
      if r != [] {
        assert r[0] == u[0];
      }
    }
    LabelMatchRStrip(u, LabelPrefixes);
  }

  /** Empty and whitespace-only lines are never noise. */
  lemma BlankLineNotNoise(line: string)
    requires IsBlank(line)
    ensures !IsRustNoiseLine(line)
  {
    StripEmptyIffBlank(line);
    SectionNamesSpaceFree();
    SearchEmpty(SectionNames);
    assert LStrip([]) == [];
  }

  /** Indentation does not change the verdict. */
  lemma IndentedNoiseLine(w: string, line: string)
    requires IsBlank(w)
    ensures IsRustNoiseLine(w + line) == IsRustNoiseLine(line)
  {
    StripAfterBlank(w, line);
  }

  lemma LabelPrefixesStartDotL()
    ensures forall k :: 0 <= k < |LabelPrefixes| ==>
      |LabelPrefixes[k]| >= 2 && LabelPrefixes[k][0] == '.' && LabelPrefixes[k][1] == 'L'
  {
  }

  /**
    A label counts only as the first word of the line: text that, after the
    indentation, does not start with `.L` (an instruction whose operand is a
    label, a directive, a function label) never matches.
  */
  lemma LabelOnlyAtHead(line: string)
    requires var u := LStrip(line); |u| < 2 || u[0] != '.' || u[1] != 'L'
    ensures !LabelAtStart(line)
  {
    LabelPrefixesStartDotL();
  }

  // ---------------------------------------------------------------------------
  // `is_rust_noise_symbol`
  // ---------------------------------------------------------------------------

  predicate IsRustNoiseSymbol(symbol: string) {
    Search(symbol, InternalNames) || Search(symbol, PanicNames)
  }

  /** Every word either group looks for. */
  const RuntimeNames: seq<string> := InternalNames + PanicNames

  /** A symbol is runtime noise exactly when it contains one of the runtime names. */
  lemma NoiseSymbolIff(symbol: string)
    ensures IsRustNoiseSymbol(symbol) <==>
      exists k :: 0 <= k < |RuntimeNames| && Contains(symbol, RuntimeNames[k])
  {
    SearchEither(symbol, InternalNames, PanicNames);
  }

  /** Any symbol that contains a noise symbol is noise too. */
  lemma NoiseSymbolSuperstring(s: string, t: string)
    requires IsRustNoiseSymbol(s) && Contains(t, s)
    ensures IsRustNoiseSymbol(t)
  {
    NoiseSymbolIff(s);
    NoiseSymbolIff(t);
    var k :| 0 <= k < |RuntimeNames| && Contains(s, RuntimeNames[k]);
    ContainsTransitive(t, s, RuntimeNames[k]);
  }

  /** Symbols shorter than the shortest runtime name, `__rg_`, are never noise. */
  lemma ShortSymbolNotNoise(symbol: string)
    requires |symbol| < 5
    ensures !IsRustNoiseSymbol(symbol)
  {
    NoiseSymbolIff(symbol);
    forall k | 0 <= k < |RuntimeNames| ensures !Contains(symbol, RuntimeNames[k]) {
      if Contains(symbol, RuntimeNames[k]) {
        ContainsLength(symbol, RuntimeNames[k]);
      }
    }
  }
}
