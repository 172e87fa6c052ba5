/**
  The assembly line filter of the C/C++ pipeline: drops blank lines and lines
  whose text (after leading whitespace) starts with one of a fixed set of
  directive or label prefixes, and keeps every other line, unmodified and in
  order. There is no section tracking: only the matching line itself is dropped.
*/
module Lexer {
  import opened TextUtil

  /** One entry of the noise table: a prefix, optionally followed by a required digit. */
  datatype NoisePattern = Prefix(text: string) | PrefixThenDigit(text: string)

  /** The noise table, in the order the filter tries it. */
  const NoisePatterns: seq<NoisePattern> := [
    Prefix(".cfi_"),
    PrefixThenDigit(".LFB"),
    PrefixThenDigit(".LFE"),
    Prefix(".file"),
    Prefix(".text"),
    Prefix(".p2align"),
    Prefix(".type"),
    Prefix(".size"),
    Prefix(".globl"),
    Prefix(".section"),
    Prefix("endbr64")
  ]

  /** `re.match(r"^\s*<pattern>", line)`. */
  predicate Matches(line: string, pat: NoisePattern) {
    var t := LStrip(line);
    match pat
    case Prefix(p) => p <= t
    case PrefixThenDigit(p) => p <= t && |p| < |t| && IsDigit(t[|p|])
  }

  /** Some pattern of `pats` matches `line`, trying them front to back. */
  predicate AnyMatch(line: string, pats: seq<NoisePattern>)
    decreases |pats|
  {
    pats != [] && (Matches(line, pats[0]) || AnyMatch(line, pats[1..]))
  }

  lemma {:induction false} AnyMatchIff(line: string, pats: seq<NoisePattern>)
    ensures AnyMatch(line, pats) <==> exists k :: 0 <= k < |pats| && Matches(line, pats[k])
    decreases |pats|
  {
    if pats != [] {
      AnyMatchIff(line, pats[1..]);
      if AnyMatch(line, pats[1..]) {
        var k :| 0 <= k < |pats| - 1 && Matches(line, pats[1..][k]);
        assert Matches(line, pats[k + 1]);
      }
      if exists k :: 0 <= k < |pats| && Matches(line, pats[k]) {
        var k :| 0 <= k < |pats| && Matches(line, pats[k]);
        if k > 0 {
          assert pats[1..][k - 1] == pats[k];
        }
      }
    }
  }

  lemma AnyMatchFrom(line: string, pats: seq<NoisePattern>, j: nat)
    requires j < |pats|
    ensures AnyMatch(line, pats[j..]) == (Matches(line, pats[j]) || AnyMatch(line, pats[j + 1..]))
  {
    assert pats[j..][1..] == pats[j + 1..];
  }

  predicate IsNoise(line: string) {
    AnyMatch(line, NoisePatterns)
  }

  /** A line the filter keeps: not blank and matching no noise pattern. */
  predicate Kept(line: string) {
    !IsBlank(line) && !IsNoise(line)
  }

  /** The kept lines, in input order. */
  function Clean(lines: seq<string>): seq<string>
    decreases |lines|
  {
    if lines == [] then []
    else
      var last := lines[|lines| - 1];
      Clean(lines[..|lines| - 1]) + (if Kept(last) then [last] else [])
  }

  lemma CleanStep(lines: seq<string>, i: nat)
    requires i < |lines|
    ensures Clean(lines[..i + 1]) == Clean(lines[..i]) + (if Kept(lines[i]) then [lines[i]] else [])
  {
    assert lines[..i + 1][..i] == lines[..i];
  }

  /** `clean_assembly`: filters the lines and joins the survivors with '\n'. */
  method CleanAssembly(rawLines: seq<string>) returns (cleaned: string)
    ensures cleaned == Join(Clean(rawLines), "\n")
  {
    var cleanLines: seq<string> := [];
    var i := 0;
    while i < |rawLines|
      invariant 0 <= i <= |rawLines|
      invariant cleanLines == Clean(rawLines[..i])
    {
      var line := rawLines[i];
      CleanStep(rawLines, i);
      if Strip(line) == [] {
        StripEmptyIffBlank(line);
        i := i + 1;
        continue;
      }
      StripEmptyIffBlank(line);
      var isNoise := false;
      var patterns := NoisePatterns;
      var j := 0;
      while j < |patterns|
        invariant 0 <= j <= |patterns|
        invariant !isNoise
        invariant IsNoise(line) == AnyMatch(line, patterns[j..])
      {
        AnyMatchFrom(line, patterns, j);
        if Matches(line, patterns[j]) {
          isNoise := true;
          break;
        }
        j := j + 1;
      }
      if !isNoise {
        cleanLines := cleanLines + [line];
      }
      i := i + 1;
    }
    assert rawLines[..i] == rawLines;
    cleaned := Join(cleanLines, "\n");
  }

  // ---------------------------------------------------------------------------
  // Properties of the filter
  // ---------------------------------------------------------------------------

  /** Cleaning distributes over concatenation: survivors keep their relative order. */
  lemma {:induction false} CleanAppend(a: seq<string>, b: seq<string>)
    ensures Clean(a + b) == Clean(a) + Clean(b)
    decreases |b|
  {
    if b == [] {
      assert a + b == a;
    } else {
      var b' := b[..|b| - 1];
      assert (a + b)[..|a + b| - 1] == a + b';
      CleanAppend(a, b');
    }
  }

  /** Every output line is an input line that is non-blank and matches no noise pattern. */
  lemma {:induction false} CleanSound(lines: seq<string>)
    ensures forall k :: 0 <= k < |Clean(lines)| ==> Clean(lines)[k] in lines && Kept(Clean(lines)[k])
    decreases |lines|
  {
    if lines != [] {
      var init := lines[..|lines| - 1];
      CleanSound(init);
      forall k | 0 <= k < |Clean(init)| ensures Clean(init)[k] in lines {
        assert Clean(init)[k] in init;
      }
    }
  }

  /** Every non-blank input line that matches no noise pattern survives. */
  lemma {:induction false} CleanComplete(lines: seq<string>)
    ensures forall k :: 0 <= k < |lines| && Kept(lines[k]) ==> lines[k] in Clean(lines)
    decreases |lines|
  {
    if lines != [] {
      var init := lines[..|lines| - 1];
      CleanComplete(init);
      forall k | 0 <= k < |lines| && Kept(lines[k]) ensures lines[k] in Clean(lines) {
        if k < |lines| - 1 {
          assert lines[k] == init[k];
        }
      }
    }
  }

  /** Kept lines are copied unmodified: a line that survives on its own is returned as is. */
  lemma CleanSingle(line: string)
    ensures Clean([line]) == if Kept(line) then [line] else []
  {
    assert [line][..0] == [];
  }

  /** No output line is empty or whitespace-only. */
  lemma NoBlankOutput(lines: seq<string>)
    ensures forall k :: 0 <= k < |Clean(lines)| ==> Clean(lines)[k] != [] && Strip(Clean(lines)[k]) != []
  {
    CleanSound(lines);
    forall k | 0 <= k < |Clean(lines)| ensures Clean(lines)[k] != [] && Strip(Clean(lines)[k]) != [] {
      StripEmptyIffBlank(Clean(lines)[k]);
    }
  }

  /** After leading whitespace no output line starts with a noise prefix. */
  lemma KeptLinesHaveNoNoisePrefix(lines: seq<string>)
    ensures forall k :: 0 <= k < |Clean(lines)| ==>
      var t := LStrip(Clean(lines)[k]);
      && !(".cfi_" <= t) && !(".file" <= t) && !(".text" <= t) && !(".p2align" <= t)
      && !(".type" <= t) && !(".size" <= t) && !(".globl" <= t) && !(".section" <= t)
      && !("endbr64" <= t)
      && !(".LFB" <= t && |t| > 4 && IsDigit(t[4]))
      && !(".LFE" <= t && |t| > 4 && IsDigit(t[4]))
  {
    CleanSound(lines);
    forall k | 0 <= k < |Clean(lines)|
      ensures var t := LStrip(Clean(lines)[k]);
        && !(".cfi_" <= t) && !(".file" <= t) && !(".text" <= t) && !(".p2align" <= t)
        && !(".type" <= t) && !(".size" <= t) && !(".globl" <= t) && !(".section" <= t)
        && !("endbr64" <= t)
        && !(".LFB" <= t && |t| > 4 && IsDigit(t[4]))
        && !(".LFE" <= t && |t| > 4 && IsDigit(t[4]))
    {
      var line := Clean(lines)[k];
      AnyMatchIff(line, NoisePatterns);
      assert !Matches(line, NoisePatterns[0]);
      assert !Matches(line, NoisePatterns[1]);
      assert !Matches(line, NoisePatterns[2]);
      assert !Matches(line, NoisePatterns[3]);
      assert !Matches(line, NoisePatterns[4]);
      assert !Matches(line, NoisePatterns[5]);
      assert !Matches(line, NoisePatterns[6]);
      assert !Matches(line, NoisePatterns[7]);
      assert !Matches(line, NoisePatterns[8]);
      assert !Matches(line, NoisePatterns[9]);
      assert !Matches(line, NoisePatterns[10]);
    }
  }

  /** Empty or whitespace-only input yields the empty string. */
  lemma {:induction false} BlankInputYieldsEmpty(lines: seq<string>)
    requires forall k :: 0 <= k < |lines| ==> IsBlank(lines[k])
    ensures Clean(lines) == [] && Join(Clean(lines), "\n") == ""
    decreases |lines|
  {
    if lines != [] {
      BlankInputYieldsEmpty(lines[..|lines| - 1]);
    }
  }

  /** Cleaning twice is cleaning once. */
  lemma {:induction false} CleanIdempotent(lines: seq<string>)
    ensures Clean(Clean(lines)) == Clean(lines)
    decreases |lines|
  {
    if lines != [] {
      var init := lines[..|lines| - 1];
      var last := lines[|lines| - 1];
      CleanIdempotent(init);
      CleanAppend(Clean(init), if Kept(last) then [last] else []);
      if Kept(last) {
        CleanSingle(last);
      }
    }
  }

  /** Idempotence on text: splitting the cleaned text into lines and cleaning again returns it unchanged. */
  lemma CleanTextIdempotent(lines: seq<string>)
    requires forall k :: 0 <= k < |lines| ==> NoNewline(lines[k])
    ensures
      var cleaned := Join(Clean(lines), "\n");
      Join(Clean(SplitLines(cleaned)), "\n") == cleaned
  {
    CleanSound(lines);
    NoBlankOutput(lines);
    SplitJoinLines(Clean(lines));
    CleanIdempotent(lines);
  }

  /** A line whose text starts, unindented, with a plain noise prefix is noise. */
  lemma PrefixIsNoise(line: string, k: nat)
    requires k < |NoisePatterns| && NoisePatterns[k].Prefix?
    requires line != [] && !IsSpace(line[0]) && NoisePatterns[k].text <= line
    ensures IsNoise(line)
  {
    assert LStrip(line) == line;
    assert Matches(line, NoisePatterns[k]);
    AnyMatchIff(line, NoisePatterns);
  }

  lemma SectionDirectiveIsNoise()
    ensures IsNoise(".section .debug_info")
  {
    var s1 := ".section .debug_info";
    assert NoisePatterns[9].text <= s1;
    PrefixIsNoise(s1, 9);
  }

  lemma DataDirectiveKept()
    ensures Kept(".long 42")
  {
    var s2 := ".long 42";
    assert !IsSpace(s2[0]);
    assert LStrip(s2) == s2;
    forall k | 0 <= k < |NoisePatterns| ensures !Matches(s2, NoisePatterns[k]) {
      assert s2[1] == 'l';
    }
    AnyMatchIff(s2, NoisePatterns);
  }

  lemma CleanPair(a: string, b: string)
    ensures Clean([a, b]) == (if Kept(a) then [a] else []) + (if Kept(b) then [b] else [])
  {
    CleanAppend([a], [b]);
    CleanSingle(a);
    CleanSingle(b);
    assert [a] + [b] == [a, b];
  }

  /** No section tracking: data after a debug `.section` line is kept; only the `.section` line goes. */
  lemma NoSectionTracking()
    ensures Clean([".section .debug_info", ".long 42"]) == [".long 42"]
  {
    SectionDirectiveIsNoise();
    DataDirectiveKept();
    CleanPair(".section .debug_info", ".long 42");
  }
}
