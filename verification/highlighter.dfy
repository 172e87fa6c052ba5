/**
  The highlighter's mnemonic vocabulary and the cycle-count gutter.

  `INSTRUCTIONS` is a word-bounded, case-insensitive alternation; because
  every alternative starts and ends with a word character, a match is
  always a whole run of word characters, and `re.search` finds the first
  such run whose lower-case form the alternation accepts.

  `build_gutter` turns the per-line cycle counts into one styled cell per
  assembly line, separated by unstyled line breaks.
*/
module Highlighter {
  import opened Wrappers
  import opened TextUtil

  // ---------------------------------------------------------------------------
  // The `INSTRUCTIONS` vocabulary
  // ---------------------------------------------------------------------------

  /** The plain alternatives of the group, in lower case. */
  const Mnemonics: set<string> := {
    "lea", "add", "sub", "imul", "idiv", "mul", "div", "inc", "dec",
    "cmp", "test", "and", "or", "xor", "not", "shl", "shr", "sar", "sal",
    "jmp", "je", "jne", "jz", "jnz", "jg", "jge", "jl", "jle", "ja", "jae", "jb", "jbe",
    "call", "ret", "push", "pop", "nop", "int", "syscall", "leave", "enter"
  }

  /** What `movs?[xzbw]?` allows after `mov`. */
  const MovSuffixes: set<string> := {"", "s", "x", "z", "b", "w", "sx", "sz", "sb", "sw"}

  /** `movs?[xzbw]?` matches the whole (lower-case) word. */
  predicate IsMovForm(w: string) {
    "mov" <= w && w[3..] in MovSuffixes
  }

  /** `cmov\w+` matches the whole word: `cmov` and at least one more word character. */
  predicate IsCmovForm(w: string) {
    "cmov" <= w && |w| > 4
  }

  /** The alternation accepts the word, ignoring case. */
  predicate IsMnemonic(word: string) {
    var w := Lower(word);
    w in Mnemonics || IsMovForm(w) || IsCmovForm(w)
  }

  predicate IsWord(w: string) {
    w != [] && forall i :: 0 <= i < |w| ==> IsWordChar(w[i])
  }

  /** `\b` followed by a word character: a run of word characters starts at `p`. */
  predicate RunStart(s: string, p: int) {
    0 <= p < |s| && IsWordChar(s[p]) && (p == 0 || !IsWordChar(s[p - 1]))
  }

  /** The end of the run of word characters that starts at `p`. */
  function RunEnd(s: string, p: nat): (q: nat)
    requires p <= |s|
    ensures p <= q <= |s|
    ensures forall i :: p <= i < q ==> IsWordChar(s[i])
    ensures q < |s| ==> !IsWordChar(s[q])
    decreases |s| - p
  {
    if p == |s| || !IsWordChar(s[p]) then p else RunEnd(s, p + 1)
  }

  /** The whole word that starts at `p`. */
  function WordAt(s: string, p: nat): string
    requires p <= |s|
  {
    s[p..RunEnd(s, p)]
  }

  /** The group, with its `\b` on both sides, matches at `p`. */
  predicate MatchAt(s: string, p: nat) {
    RunStart(s, p) && IsMnemonic(WordAt(s, p))
  }

  /** Where `re.search` finds its match when it starts scanning at `p`. */
  function SearchFrom(s: string, p: nat): (r: Option<nat>)
    ensures r.Some? ==> p <= r.value < |s| && MatchAt(s, r.value)
    ensures forall j :: p <= j < |s| && (r.None? || j < r.value) ==> !MatchAt(s, j)
    decreases |s| - p
  {
    if p >= |s| then None
    else if MatchAt(s, p) then Some(p)
    else SearchFrom(s, p + 1)
  }

  /** `INSTRUCTIONS.search(s).group(0)`, when there is a match. */
  function FindInstruction(s: string): Option<string> {
    match SearchFrom(s, 0)
    case None => None
    case Some(p) => Some(WordAt(s, p))
  }

  /** The run that starts at `p` is a whole word of the text. */
  lemma WordAtIsWord(s: string, p: nat)
    requires RunStart(s, p)
    ensures IsWord(WordAt(s, p)) && Contains(s, WordAt(s, p))
  {
    var q := RunEnd(s, p);
    ContainsMiddle(s[..p], s[p..q], s[q..]);
    assert s[..p] + s[p..q] + s[q..] == s;
  }

  /** What the search returns is a whole word of the text that the vocabulary accepts. */
  lemma FindInstructionSound(s: string)
    ensures FindInstruction(s).Some? ==>
      var w := FindInstruction(s).value;
      IsWord(w) && IsMnemonic(w) && Contains(s, w)
  {
    var r := SearchFrom(s, 0);
    if r.Some? {
      WordAtIsWord(s, r.value);
    }
  }

  /** The search returns the first accepted word: an accepted word with none before it is the match. */
  lemma FindInstructionFirst(s: string, p: nat)
    requires MatchAt(s, p)
    requires forall j :: 0 <= j < p ==> !MatchAt(s, j)
    ensures FindInstruction(s) == Some(WordAt(s, p))
  {
  }

  /** The search fails exactly when no word of the text is accepted. */
  lemma FindInstructionNone(s: string)
    ensures FindInstruction(s).None? <==> forall p :: 0 <= p < |s| ==> !MatchAt(s, p)
  {
  }

  /** The ASCII case mappings agree after lower-casing. */
  lemma LowerUpperChar(c: char)
    ensures LowerChar(UpperChar(c)) == LowerChar(c)
  {
  }

  /** Upper-casing a word does not change whether the vocabulary accepts it. */
  lemma MnemonicIgnoresCase(w: string)
    ensures IsMnemonic(Upper(w)) <==> IsMnemonic(w)
  {
    forall i | 0 <= i < |w| ensures Lower(Upper(w))[i] == Lower(w)[i] {
      LowerUpperChar(w[i]);
    }
    assert Lower(Upper(w)) == Lower(w);
  }

  /** Every conditional move is an instruction: `cmov` followed by any word characters. */
  lemma CmovFamily(cond: string)
    requires cond != []
    ensures IsMnemonic("cmov" + cond)
  {
    var w := Lower("cmov" + cond);
    assert w[..4] == "cmov";
  }

  // ---------------------------------------------------------------------------
  // `build_gutter`
  // ---------------------------------------------------------------------------

  /** The styles of the gutter; `Plain` is text appended without a style. */
  datatype Style = Plain | Green | Yellow | BoldRed

  /** A piece of Rich text: its characters and their style. */
  datatype Segment = Segment(text: string, style: Style)

  const GutterWidth: nat := 4

  const LineBreak: Segment := Segment("\n", Plain)

  /** The severity of a cycle count. */
  function SeverityStyle(cycles: int): Style {
    if cycles <= 1 then Green else if cycles <= 4 then Yellow else BoldRed
  }

  function Rank(style: Style): nat {
    match style
    case Plain => 0
    case Green => 1
    case Yellow => 2
    case BoldRed => 3
  }

  /** More cycles never give a milder style. */
  lemma SeverityMonotone(a: int, b: int)
    requires a <= b
    ensures 1 <= Rank(SeverityStyle(a)) <= Rank(SeverityStyle(b))
  {
  }

  function Spaces(n: nat): (r: string)
    ensures |r| == n && forall i :: 0 <= i < n ==> r[i] == ' '
  {
    if n == 0 then "" else Spaces(n - 1) + " "
  }

  /** `f"{s:<width}"`: left-aligned, padded with spaces, never truncated. */
  function PadRight(s: string, width: nat): (r: string)
    ensures |r| == if |s| < width then width else |s|
    ensures r[..|s|] == s
    ensures forall i :: |s| <= i < |r| ==> r[i] == ' '
  {
    if |s| < width then s + Spaces(width - |s|) else s
  }

  /** The gutter cell of 1-based line `lineNum`. */
  function Cell(counts: map<int, int>, lineNum: int): Segment {
    if lineNum in counts then
      var cycles := counts[lineNum];
      Segment(PadRight(IntToString(cycles), GutterWidth), SeverityStyle(cycles))
    else Segment("    ", Plain)
  }

  /**
    A line without a count gets four unstyled spaces; a count is printed
    left-aligned in at least four characters, never truncated, in the style
    of its severity.
  */
  lemma CellShape(counts: map<int, int>, lineNum: int)
    ensures var c := Cell(counts, lineNum);
      lineNum !in counts ==> c == Segment("    ", Plain)
    ensures var c := Cell(counts, lineNum);
      lineNum in counts ==>
      var digits := IntToString(counts[lineNum]);
      c.style == SeverityStyle(counts[lineNum]) &&
      |c.text| == (if |digits| < GutterWidth then GutterWidth else |digits|) &&
      c.text[..|digits|] == digits &&
      forall i :: |digits| <= i < |c.text| ==> c.text[i] == ' '
  {
    if lineNum !in counts {
      assert Spaces(GutterWidth) == "    ";
    }
  }

  /** A cell is never empty and never holds a line break. */
  lemma CellIsOneLine(counts: map<int, int>, lineNum: int)
    ensures Cell(counts, lineNum).text != [] && NoNewline(Cell(counts, lineNum).text)
  {
    CellShape(counts, lineNum);
    var c := Cell(counts, lineNum);
    if lineNum in counts {
      IntToStringNoNewline(counts[lineNum]);
      var digits := IntToString(counts[lineNum]);
      forall i | 0 <= i < |c.text| ensures c.text[i] != '\n' {
        if i < |digits| {
          assert c.text[i] == c.text[..|digits|][i];
        }
      }
    }
  }

  /** The first `i` items, each followed by `sep` unless it is the last item of all. */
  function Interleave<T>(items: seq<T>, sep: T, i: nat): seq<T>
    requires i <= |items|
  {
    if i == 0 then []
    else Interleave(items, sep, i - 1) + [items[i - 1]] + (if i < |items| then [sep] else [])
  }

  /** Items sit at the even positions, in order; separators between them at the odd ones. */
  lemma {:induction false} InterleaveShape<T>(items: seq<T>, sep: T, i: nat)
    requires i <= |items|
    ensures var g := Interleave(items, sep, i);
      |g| == 2 * i - (if i == |items| && i > 0 then 1 else 0) &&
      (forall k :: 0 <= k < i ==> g[2 * k] == items[k]) &&
      (forall k :: 0 <= k < i && k + 1 < |items| ==> g[2 * k + 1] == sep)
  {
    if i > 0 {
      InterleaveShape(items, sep, i - 1);
      var prev := Interleave(items, sep, i - 1);
      var g := Interleave(items, sep, i);
      assert |prev| == 2 * (i - 1);
      forall k | 0 <= k < i ensures g[2 * k] == items[k] {
        if k < i - 1 {
          assert g[2 * k] == prev[2 * k];
        }
      }
      forall k | 0 <= k < i && k + 1 < |items| ensures g[2 * k + 1] == sep {
        if k < i - 1 {
          assert g[2 * k + 1] == prev[2 * k + 1];
        }
      }
    }
  }

  /** The cells of lines 1..n, in order. */
  function CellRow(counts: map<int, int>, n: nat): seq<Segment> {
    seq(n, k => Cell(counts, k + 1))
  }

  /**
    The segments after the first `i` of `n` iterations: each line's cell,
    followed by a line break unless it is the last line.
  */
  function GutterPrefix(counts: map<int, int>, n: nat, i: nat): seq<Segment>
    requires i <= n
  {
    Interleave(CellRow(counts, n), LineBreak, i)
  }

  /** Cells sit at the even positions, in line order; line breaks between them at the odd ones. */
  lemma PrefixShape(counts: map<int, int>, n: nat, i: nat)
    requires i <= n
    ensures var g := GutterPrefix(counts, n, i);
      |g| == 2 * i - (if i == n && n > 0 then 1 else 0) &&
      (forall k :: 0 <= k < i ==> g[2 * k] == Cell(counts, k + 1)) &&
      (forall k :: 0 <= k < i && k + 1 < n ==> g[2 * k + 1] == LineBreak)
  {
    var row := CellRow(counts, n);
    InterleaveShape(row, LineBreak, i);
    forall k | 0 <= k < i ensures GutterPrefix(counts, n, i)[2 * k] == Cell(counts, k + 1) {
      assert row[k] == Cell(counts, k + 1);
    }
  }

  /** One iteration appends the next line's cell and, unless it was the last line, a line break. */
  lemma PrefixStep(counts: map<int, int>, n: nat, i: nat)
    requires i < n
    ensures GutterPrefix(counts, n, i + 1) == GutterPrefix(counts, n, i) + [Cell(counts, i + 1)] + (if i + 1 < n then [LineBreak] else [])
  {
    assert CellRow(counts, n)[i] == Cell(counts, i + 1);
  }

  /** The gutter of `n` lines. */
  function Gutter(counts: map<int, int>, n: nat): seq<Segment> {
    GutterPrefix(counts, n, n)
  }

  /**
    One entry per line: entry `k` is the cell of 1-based line `k + 1`, and
    exactly `n - 1` line breaks separate the entries.
  */
  lemma GutterShape(counts: map<int, int>, n: nat)
    ensures var g := Gutter(counts, n);
      |g| == (if n == 0 then 0 else 2 * n - 1) &&
      (forall k :: 0 <= k < n ==> g[2 * k] == Cell(counts, k + 1)) &&
      (forall k :: 0 <= k && k + 1 < n ==> g[2 * k + 1] == LineBreak)
  {
    PrefixShape(counts, n, n);
  }

  method BuildGutter(asmLines: seq<string>, cycleCounts: map<int, int>) returns (gutter: seq<Segment>)
    ensures gutter == Gutter(cycleCounts, |asmLines|)
  {
    gutter := [];
    var i := 0;
    while i < |asmLines|
      invariant 0 <= i <= |asmLines|
      invariant gutter == GutterPrefix(cycleCounts, |asmLines|, i)
    {
      var lineNum := i + 1;
      var cell;
      if lineNum in cycleCounts {
        var cycles := cycleCounts[lineNum];
        var style;
        if cycles <= 1 {
          style := Green;
        } else if cycles <= 4 {
          style := Yellow;
        } else {
          style := BoldRed;
        }
        cell := Segment(PadRight(IntToString(cycles), GutterWidth), style);
      } else {
        cell := Segment(Spaces(GutterWidth), Plain);
      }
      assert cell == Cell(cycleCounts, lineNum);
      ghost var before := gutter;
      gutter := gutter + [cell];
      if lineNum < |asmLines| {
        gutter := gutter + [LineBreak];
      }
      assert gutter == before + [cell] + (if lineNum < |asmLines| then [LineBreak] else []);
      PrefixStep(cycleCounts, |asmLines|, i);
      i := i + 1;
    }
  }

  /** The characters of a styled text. */
  function PlainText(segments: seq<Segment>): string {
    if segments == [] then "" else PlainText(segments[..|segments| - 1]) + segments[|segments| - 1].text
  }

  /** The cell texts of lines 1..n, in order. */
  function CellTexts(counts: map<int, int>, n: nat): (ts: seq<string>)
    ensures |ts| == n
    decreases n
  {
    if n == 0 then [] else CellTexts(counts, n - 1) + [Cell(counts, n).text]
  }

  lemma {:induction false} CellTextsAt(counts: map<int, int>, n: nat, k: nat)
    requires k < n
    ensures |CellTexts(counts, n)| == n && CellTexts(counts, n)[k] == Cell(counts, k + 1).text
    decreases n
  {
    if k < n - 1 {
      CellTextsAt(counts, n - 1, k);
    } else if n > 1 {
      CellTextsAt(counts, n - 1, 0);
    }
  }

  lemma PlainTextAppend(a: seq<Segment>, b: seq<Segment>)
    ensures PlainText(a + b) == PlainText(a) + PlainText(b)
    decreases |b|
  {
    if b == [] {
      assert a + b == a;
    } else {
      assert (a + b)[..|a + b| - 1] == a + b[..|b| - 1];
      PlainTextAppend(a, b[..|b| - 1]);
    }
  }

  /** Joining `ts + [t]` adds the separator and `t` after the join of `ts`. */
  lemma {:induction false} JoinSnoc(ts: seq<string>, t: string, sep: string)
    requires ts != []
    ensures Join(ts + [t], sep) == Join(ts, sep) + sep + t
    decreases |ts|
  {
    if |ts| == 1 {
      assert ts + [t] == [ts[0], t];
    } else {
      assert (ts + [t])[1..] == ts[1..] + [t];
      JoinSnoc(ts[1..], t, sep);
    }
  }

  lemma PlainTextSingle(x: Segment)
    ensures PlainText([x]) == x.text
  {
    assert [x][..0] == [];
  }

  /** One iteration adds the cell's text and, unless it was the last line, a line break. */
  lemma PrefixTextStep(counts: map<int, int>, n: nat, i: nat)
    requires 0 < i <= n
    ensures PlainText(GutterPrefix(counts, n, i)) ==
      PlainText(GutterPrefix(counts, n, i - 1)) + Cell(counts, i).text + (if i < n then "\n" else "")
  {
    PrefixStep(counts, n, i - 1);
    PlainTextSnoc(GutterPrefix(counts, n, i - 1), Cell(counts, i), i < n);
  }

  /** Appending a segment and perhaps a line break appends their texts. */
  lemma PlainTextSnoc(prev: seq<Segment>, cell: Segment, more: bool)
    ensures PlainText(prev + [cell] + (if more then [LineBreak] else [])) ==
      PlainText(prev) + cell.text + (if more then "\n" else "")
  {
    var brk: seq<Segment> := if more then [LineBreak] else [];
    PlainTextAppend(prev + [cell], brk);
    PlainTextAppend(prev, [cell]);
    PlainTextSingle(cell);
    if more {
      PlainTextSingle(LineBreak);
    }
  }

  /** The text after `i` of `n` iterations: the first `i` cells joined, plus a break when more follow. */
  lemma {:induction false} PrefixText(counts: map<int, int>, n: nat, i: nat)
    requires 0 < i <= n
    ensures PlainText(GutterPrefix(counts, n, i)) ==
      Join(CellTexts(counts, i), "\n") + (if i < n then "\n" else "")
  {
    PrefixTextStep(counts, n, i);
    var before := PlainText(GutterPrefix(counts, n, i - 1));
    var t := Cell(counts, i).text;
    if i == 1 {
      assert GutterPrefix(counts, n, 0) == [];
      assert before == "";
      assert CellTexts(counts, 1) == [t];
    } else {
      PrefixText(counts, n, i - 1);
      var ts := CellTexts(counts, i - 1);
      assert before == Join(ts, "\n") + "\n";
      JoinSnoc(ts, t, "\n");
      assert CellTexts(counts, i) == ts + [t];
    }
  }

  /**
    The gutter's text is the cells of lines 1..n joined by single line
    breaks: no break after the last, and nothing at all for no lines.
  */
  lemma GutterText(counts: map<int, int>, n: nat)
    ensures PlainText(Gutter(counts, n)) == Join(CellTexts(counts, n), "\n")
  {
    if n > 0 {
      PrefixText(counts, n, n);
    }
  }

  /** Splitting the gutter's text at its line breaks gives back one cell per line. */
  lemma GutterLines(counts: map<int, int>, n: nat)
    ensures SplitLines(PlainText(Gutter(counts, n))) == CellTexts(counts, n)
  {
    GutterText(counts, n);
    var ts := CellTexts(counts, n);
    assert forall k :: 0 <= k < |ts| ==> ts[k] != [] && NoNewline(ts[k]) by {
      forall k | 0 <= k < |ts| ensures ts[k] != [] && NoNewline(ts[k]) {
        CellTextsAt(counts, n, k);
        CellIsOneLine(counts, k + 1);
      }
    }
    SplitJoinLines(ts);
  }
}
