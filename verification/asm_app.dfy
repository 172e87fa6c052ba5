/**
  The stand-alone assembly viewer: a list of assembly lines with a line
  cursor, a background tint per line chosen from its cycle count, and a
  cycle count right-aligned at the far edge of each row.

  Reading the file, the terminal width and the widgets themselves are
  outside the model: the lines and the width arrive as parameters.
*/
module AsmApp {
  import opened Wrappers
  import opened TextUtil
  import Highlighter

  /** Width of the cursor indicator, `"▶ "` or two spaces. */
  const CursorWidth: nat := 2

  /** The background tint class of a line with the given cycle count. */
  function SeverityClass(cycles: Option<int>): string {
    match cycles
    case None => ""
    case Some(c) => if c <= 1 then "sev-low" else if c <= 4 then "sev-med" else "sev-high"
  }

  /** The count shown on display line `idx` (0-based) is the one stored under line number `idx + 1`. */
  function CyclesAt(counts: map<int, int>, idx: int): Option<int> {
    if idx + 1 in counts then Some(counts[idx + 1]) else None
  }

  /** The gutter text: the count's decimal form, or nothing. */
  function CountText(cycles: Option<int>): string {
    if cycles.Some? then IntToString(cycles.value) else ""
  }

  /** The spaces between the assembly text and the gutter: whatever fills the width, at least one. */
  function Padding(width: int, line: string, gutter: string): (p: nat)
    ensures p >= 1
    ensures p > 1 ==> CursorWidth + |line| + p + |gutter| == width
    ensures CursorWidth + |line| + p + |gutter| >= width
  {
    var used := CursorWidth + |line| + |gutter|;
    if width - used > 1 then width - used else 1
  }

  /** The pieces of one row, apart from the highlighted assembly text itself. */
  datatype RowLayout = RowLayout(marker: string, padding: nat, gutter: string)

  /** The cursor indicator of a row. */
  function Marker(isCursor: bool): (m: string)
    ensures |m| == CursorWidth
  {
    if isCursor then "▶ " else "  "
  }

  /** Moving the cursor to `target` over `n` lines: out-of-range targets are ignored. */
  function Moved(n: nat, cursor: int, target: int): int {
    if target < 0 || target >= n then cursor else target
  }

  class AsmViewer {
    var lines: seq<string>
    var cursor: int
    var cycleCounts: map<int, int>

    /** The cursor lies on a line, or is 0 when there are none. */
    predicate Valid()
      reads this
    {
      0 <= cursor && (lines == [] ==> cursor == 0) && (lines != [] ==> cursor < |lines|)
    }

    /** `cycle_counts or {}`: a missing table is the empty table. */
    constructor (counts: Option<map<int, int>>)
      ensures Valid()
      ensures lines == [] && cursor == 0
      ensures cycleCounts == if counts.Some? then counts.value else map[]
    {
      lines := [];
      cursor := 0;
      cycleCounts := if counts.Some? then counts.value else map[];
    }

    /** Loads the lines of the file and puts the cursor on the first. */
    method LoadAsm(fileLines: seq<string>)
      modifies this
      ensures Valid()
      ensures lines == fileLines && cursor == 0 && cycleCounts == old(cycleCounts)
    {
      lines := fileLines;
      cursor := 0;
    }

    /** Moves the cursor to `target` when it is a line; does nothing otherwise. */
    method MoveCursor(target: int)
      requires Valid()
      modifies this
      ensures Valid()
      ensures lines == old(lines) && cycleCounts == old(cycleCounts)
      ensures cursor == Moved(|lines|, old(cursor), target)
    {
      if target < 0 || target >= |lines| {
        return;
      }
      cursor := target;
    }

    method CursorUp()
      requires Valid()
      modifies this
      ensures Valid()
      ensures lines == old(lines) && cycleCounts == old(cycleCounts)
      ensures cursor == Moved(|lines|, old(cursor), old(cursor) - 1)
    {
      MoveCursor(cursor - 1);
    }

    method CursorDown()
      requires Valid()
      modifies this
      ensures Valid()
      ensures lines == old(lines) && cycleCounts == old(cycleCounts)
      ensures cursor == Moved(|lines|, old(cursor), old(cursor) + 1)
    {
      MoveCursor(cursor + 1);
    }

    /** The selected line's text, or `""` when there are no lines. */
    method GetLine() returns (line: string)
      requires Valid()
      ensures lines == [] ==> line == ""
      ensures lines != [] ==> line == lines[cursor]
    {
      if |lines| > 0 {
        return lines[cursor];
      }
      return "";
    }

    /** The layout of display line `idx` for a terminal `width` columns wide. */
    function Layout(idx: int, width: int): (r: RowLayout)
      requires 0 <= idx < |lines|
      reads this
      ensures |r.marker| == CursorWidth && (r.marker == "▶ " <==> idx == cursor)
      ensures r.gutter == CountText(CyclesAt(cycleCounts, idx))
      ensures r.padding >= 1 && CursorWidth + |lines[idx]| + r.padding + |r.gutter| >= width
      ensures r.padding > 1 ==> CursorWidth + |lines[idx]| + r.padding + |r.gutter| == width
    {
      var gutter := CountText(CyclesAt(cycleCounts, idx));
      RowLayout(Marker(idx == cursor), Padding(width, lines[idx], gutter), gutter)
    }

    /** The classes of display line `idx` when the lines are loaded: its tint, if any, and `cursor` on the cursor line. */
    function LineClasses(idx: int): (cs: set<string>)
      reads this
      ensures "cursor" in cs <==> idx == cursor
      ensures forall c :: c in cs && c != "cursor" ==> c == SeverityClass(CyclesAt(cycleCounts, idx)) && c != ""
    {
      var sev := SeverityClass(CyclesAt(cycleCounts, idx));
      (if sev != "" then {sev} else {}) + (if idx == cursor then {"cursor"} else {})
    }
  }

  // ---------------------------------------------------------------------------
  // Properties
  // ---------------------------------------------------------------------------

  /** The four tint classes and the counts that select them. */
  lemma SeverityClassIff(cycles: Option<int>)
    ensures SeverityClass(cycles) == "" <==> cycles.None?
    ensures SeverityClass(cycles) == "sev-low" <==> cycles.Some? && cycles.value <= 1
    ensures SeverityClass(cycles) == "sev-med" <==> cycles.Some? && 2 <= cycles.value <= 4
    ensures SeverityClass(cycles) == "sev-high" <==> cycles.Some? && cycles.value >= 5
  {
  }

  /** The tints band the counts exactly as the gutter's colours do. */
  lemma SeverityClassMatchesGutter(c: int)
    ensures SeverityClass(Some(c)) == "sev-low" <==> Highlighter.SeverityStyle(c) == Highlighter.Green
    ensures SeverityClass(Some(c)) == "sev-med" <==> Highlighter.SeverityStyle(c) == Highlighter.Yellow
    ensures SeverityClass(Some(c)) == "sev-high" <==> Highlighter.SeverityStyle(c) == Highlighter.BoldRed
  {
  }

  /** A move keeps the cursor on a line. */
  lemma MovedInRange(n: nat, cursor: int, target: int)
    requires 0 <= cursor < n
    ensures 0 <= Moved(n, cursor, target) < n
    ensures Moved(n, cursor, target) == target <==> 0 <= target < n || target == cursor
  {
  }

  /** Up then down returns to the same line unless the cursor was on the first line, and vice versa. */
  lemma UpDownInverse(n: nat, cursor: int)
    requires 0 <= cursor < n
    ensures cursor > 0 ==> Moved(n, Moved(n, cursor, cursor - 1), Moved(n, cursor, cursor - 1) + 1) == cursor
    ensures cursor + 1 < n ==> Moved(n, Moved(n, cursor, cursor + 1), Moved(n, cursor, cursor + 1) - 1) == cursor
  {
  }

  /** Up on the first line and down on the last leave the cursor where it is. */
  lemma EdgesStay(n: nat)
    requires n > 0
    ensures Moved(n, 0, -1) == 0 && Moved(n, n - 1, n) == n - 1
  {
  }

  /** A row wide enough for its content puts the gutter exactly at the right edge. */
  lemma GutterAtRightEdge(width: int, line: string, gutter: string)
    requires width > CursorWidth + |line| + |gutter|
    ensures CursorWidth + |line| + Padding(width, line, gutter) + |gutter| == width
  {
  }
}
