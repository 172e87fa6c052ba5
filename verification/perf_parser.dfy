/**
  The llvm-mca "Instruction Info" parser. A single forward pass over the
  analyzer's output lines with three mutable flags (in the section, table
  header seen, next tabular index) fills a map from instruction ordinal to
  statistics. Two row shapes are recognised inside the section:

    bracketed  `[i]: {lat, uops, tput, ...`   stored under the literal index `i`
    tabular    `uops  lat  tput ...`          stored under 0, 1, 2, ... in order,
                                              only after a `[1] ... [2]` header line

  Floating-point columns are kept as the numerals the parser matched. Python's
  `float()` rejects some of those numerals (`.`, `1.2.3`); the parser then
  raises, which this model reports as a `Failure`.
*/
module PerfParser {
  import opened Wrappers
  import opened TextUtil

  datatype InstructionStats = InstructionStats(latency: nat, uops: string, throughput: string)

  /** `float()` raised on a matched numeral. */
  datatype ParseError = InvalidFloat(numeral: string)

  /** The parser's loop variables: `in_info_section`, `header_seen`, `current_idx`, `stats_map`. */
  datatype McaState = McaState(
    inInfoSection: bool,
    headerSeen: bool,
    currentIdx: nat,
    stats: map<nat, InstructionStats>)

  const Initial: McaState := McaState(false, false, 0, map[])

  const SectionMarker: string := "Instruction Info:"

  // ---------------------------------------------------------------------------
  // Row shapes
  // ---------------------------------------------------------------------------

  predicate IsNumeralChar(c: char) {
    IsDigit(c) || c == '.'
  }

  /** Length of the longest prefix of `s` in `[\d.]`. */
  function NumeralSpan(s: string): (n: nat)
    ensures n <= |s|
    ensures forall i :: 0 <= i < n ==> IsNumeralChar(s[i])
    ensures n < |s| ==> !IsNumeralChar(s[n])
  {
    if s == [] || !IsNumeralChar(s[0]) then 0 else 1 + NumeralSpan(s[1..])
  }

  /** A token of the character class `[\d.]+`. */
  predicate IsNumeral(s: string) {
    s != [] && forall i :: 0 <= i < |s| ==> IsNumeralChar(s[i])
  }

  function DotCount(s: string): nat {
    if s == [] then 0 else (if s[0] == '.' then 1 else 0) + DotCount(s[1..])
  }

  predicate HasDigit(s: string) {
    exists i :: 0 <= i < |s| && IsDigit(s[i])
  }

  /** Python's `float()` accepts a `[\d.]+` numeral exactly when it has a digit and at most one dot. */
  predicate FloatParses(s: string) {
    DotCount(s) <= 1 && HasDigit(s)
  }

  /** The maximal non-empty `[\d.]` run at the start of `s`, and what follows it. */
  function Numeral(s: string): (r: Option<(string, string)>)
    ensures r.Some? ==> IsNumeral(r.value.0) && s == r.value.0 + r.value.1
    ensures r.Some? ==> r.value.1 == [] || !IsNumeralChar(r.value.1[0])
    ensures r.None? ==> s == [] || !IsNumeralChar(s[0])
  {
    var n := NumeralSpan(s);
    if n == 0 then None else Some((s[..n], s[n..]))
  }

  /** The groups of `^\s*\[(\d+)\]:\s*\{(\d+),\s*([\d\.]+),\s*([\d\.]+)`. */
  datatype BracketRow = BracketRow(index: string, latency: string, uops: string, throughput: string)

  /** The groups of `^\s*(\d+)\s+(\d+)\s+([\d\.]+)`. */
  datatype TableRow = TableRow(uops: string, latency: string, throughput: string)

  /** `regex_legacy.match(line)`, one stage of the pattern per function. */
  function MatchBracketed(line: string): (r: Option<BracketRow>)
    ensures r.Some? ==> WellFormedBracketRow(r.value)
    ensures r.Some? ==> "[" <= LStrip(line)
  {
    var r0 := LStrip(line);
    if "[" <= r0 then BracketIndex(r0[1..]) else None
  }

  /** `(\d+)\]:\s*` and the rest. */
  function BracketIndex(s: string): (r: Option<BracketRow>)
    ensures r.Some? ==> WellFormedBracketRow(r.value)
  {
    match Digits(s)
    case None => None
    case Some((idx, r1)) => if "]:" <= r1 then BracketLatency(idx, LStrip(r1[2..])) else None
  }

  /** `\{(\d+),\s*` and the rest. */
  function BracketLatency(idx: string, s: string): (r: Option<BracketRow>)
    requires idx != [] && AllDigits(idx)
    ensures r.Some? ==> WellFormedBracketRow(r.value) && r.value.index == idx
  {
    if !("{" <= s) then None
    else match Digits(s[1..])
      case None => None
      case Some((lat, r3)) => if "," <= r3 then BracketUops(idx, lat, LStrip(r3[1..])) else None
  }

  /** `([\d\.]+),\s*` and the rest. */
  function BracketUops(idx: string, lat: string, s: string): (r: Option<BracketRow>)
    requires idx != [] && AllDigits(idx) && lat != [] && AllDigits(lat)
    ensures r.Some? ==> WellFormedBracketRow(r.value) && r.value.index == idx && r.value.latency == lat
  {
    match Numeral(s)
    case None => None
    case Some((uops, r5)) => if "," <= r5 then BracketThroughput(idx, lat, uops, LStrip(r5[1..])) else None
  }

  /** `([\d\.]+)`. */
  function BracketThroughput(idx: string, lat: string, uops: string, s: string): (r: Option<BracketRow>)
    requires idx != [] && AllDigits(idx) && lat != [] && AllDigits(lat) && IsNumeral(uops)
    ensures r.Some? ==> WellFormedBracketRow(r.value)
    ensures r.Some? ==> r.value.index == idx && r.value.latency == lat && r.value.uops == uops
  {
    match Numeral(s)
    case None => None
    case Some((tput, _)) => Some(BracketRow(idx, lat, uops, tput))
  }

  /** `regex_table.match(line)`, one stage of the pattern per function. */
  function MatchTabular(line: string): (r: Option<TableRow>)
    ensures r.Some? ==> WellFormedTableRow(r.value)
  {
    match Digits(LStrip(line))
    case None => None
    case Some((uops, r1)) => if r1 == [] || !IsSpace(r1[0]) then None else TableLatency(uops, LStrip(r1))
  }

  /** `(\d+)\s+` and the rest, after `\s+`. */
  function TableLatency(uops: string, s: string): (r: Option<TableRow>)
    requires uops != [] && AllDigits(uops)
    ensures r.Some? ==> WellFormedTableRow(r.value) && r.value.uops == uops
  {
    match Digits(s)
    case None => None
    case Some((lat, r3)) => if r3 == [] || !IsSpace(r3[0]) then None else TableThroughput(uops, lat, LStrip(r3))
  }

  /** `([\d\.]+)`, after `\s+`. */
  function TableThroughput(uops: string, lat: string, s: string): (r: Option<TableRow>)
    requires uops != [] && AllDigits(uops) && lat != [] && AllDigits(lat)
    ensures r.Some? ==> WellFormedTableRow(r.value) && r.value.uops == uops && r.value.latency == lat
  {
    match Numeral(s)
    case None => None
    case Some((tput, _)) => Some(TableRow(uops, lat, tput))
  }

  /** The fields a row of either shape can carry: digit runs and `[\d.]` runs. */
  predicate WellFormedBracketRow(row: BracketRow) {
    row.index != [] && AllDigits(row.index) && row.latency != [] && AllDigits(row.latency)
    && IsNumeral(row.uops) && IsNumeral(row.throughput)
  }

  predicate WellFormedTableRow(row: TableRow) {
    row.uops != [] && AllDigits(row.uops) && row.latency != [] && AllDigits(row.latency)
    && IsNumeral(row.throughput)
  }

  // ---------------------------------------------------------------------------
  // Rendering rows: the shapes the two patterns accept
  // ---------------------------------------------------------------------------

  lemma {:induction false} NumeralSpanOf(n: string, t: string)
    requires forall i :: 0 <= i < |n| ==> IsNumeralChar(n[i])
    requires t == [] || !IsNumeralChar(t[0])
    ensures NumeralSpan(n + t) == |n|
    decreases |n|
  {
    if n == [] {
      assert n + t == t;
    } else {
      assert (n + t)[1..] == n[1..] + t;
      NumeralSpanOf(n[1..], t);
    }
  }

  lemma NumeralOf(n: string, t: string)
    requires IsNumeral(n) && (t == [] || !IsNumeralChar(t[0]))
    ensures Numeral(n + t) == Some((n, t))
  {
    NumeralSpanOf(n, t);
    assert (n + t)[..|n|] == n && (n + t)[|n|..] == t;
  }

  /** A bracketed row as the analyzer prints it, `[i]: {lat, uops, tput` followed by `tail`. */
  function BracketedText(row: BracketRow, tail: string): string {
    "[" + row.index + "]: {" + row.latency + ", " + row.uops + ", " + row.throughput + tail
  }

  /** A tabular row, `uops lat tput` after an indent, with any whitespace gaps, followed by `tail`. */
  function TabularText(indent: string, row: TableRow, gap1: string, gap2: string, tail: string): string {
    indent + row.uops + gap1 + row.latency + gap2 + row.throughput + tail
  }

  /** The bracketed pattern reads back every field of a printed bracketed row. */
  lemma MatchBracketedRoundTrip(row: BracketRow, tail: string)
    requires WellFormedBracketRow(row) && (tail == [] || !IsNumeralChar(tail[0]))
    ensures MatchBracketed(BracketedText(row, tail)) == Some(row)
  {
    var tput := row.throughput + tail;
    var uops := row.uops + (", " + tput);
    var lat := row.latency + (", " + uops);
    var r1 := "]: {" + lat;
    var line := "[" + (row.index + r1);
    assert BracketedText(row, tail) == line;
    LStripAfterBlank("", line);
    assert "" + line == line && line[1..] == row.index + r1;
    BracketIndexOf(row, tail, r1);
  }

  lemma BracketIndexOf(row: BracketRow, tail: string, r1: string)
    requires WellFormedBracketRow(row) && (tail == [] || !IsNumeralChar(tail[0]))
    requires r1 == "]: {" + (row.latency + (", " + (row.uops + (", " + (row.throughput + tail)))))
    ensures BracketIndex(row.index + r1) == Some(row)
  {
    var lat := row.latency + (", " + (row.uops + (", " + (row.throughput + tail))));
    DigitsOf(row.index, r1);
    assert r1[2..] == " " + ("{" + lat);
    LStripAfterBlank(" ", "{" + lat);
    BracketLatencyOf(row, tail, "{" + lat);
  }

  lemma BracketLatencyOf(row: BracketRow, tail: string, s: string)
    requires WellFormedBracketRow(row) && (tail == [] || !IsNumeralChar(tail[0]))
    requires s == "{" + (row.latency + (", " + (row.uops + (", " + (row.throughput + tail)))))
    ensures BracketLatency(row.index, s) == Some(row)
  {
    var uops := row.uops + (", " + (row.throughput + tail));
    var r3 := ", " + uops;
    assert s[1..] == row.latency + r3;
    DigitsOf(row.latency, r3);
    CommaThenNumeral(row.uops, ", " + (row.throughput + tail));
    BracketUopsOf(row, tail, uops);
  }

  /** `lstrip` after the comma of `, n...` lands on the numeral. */
  lemma CommaThenNumeral(n: string, t: string)
    requires IsNumeral(n)
    ensures LStrip((", " + (n + t))[1..]) == n + t
  {
    assert (", " + (n + t))[1..] == " " + (n + t);
    assert IsNumeralChar(n[0]);
    LStripAfterBlank(" ", n + t);
  }

  lemma BracketUopsOf(row: BracketRow, tail: string, s: string)
    requires WellFormedBracketRow(row) && (tail == [] || !IsNumeralChar(tail[0]))
    requires s == row.uops + (", " + (row.throughput + tail))
    ensures BracketUops(row.index, row.latency, s) == Some(row)
  {
    NumeralOf(row.uops, ", " + (row.throughput + tail));
    CommaThenNumeral(row.throughput, tail);
    BracketThroughputOf(row, tail);
  }

  lemma BracketThroughputOf(row: BracketRow, tail: string)
    requires WellFormedBracketRow(row) && (tail == [] || !IsNumeralChar(tail[0]))
    ensures BracketThroughput(row.index, row.latency, row.uops, row.throughput + tail) == Some(row)
  {
    NumeralOf(row.throughput, tail);
  }

  /** The tabular pattern reads back every field of a printed tabular row. */
  lemma MatchTabularRoundTrip(indent: string, row: TableRow, gap1: string, gap2: string, tail: string)
    requires WellFormedTableRow(row) && IsBlank(indent)
    requires gap1 != [] && IsBlank(gap1) && gap2 != [] && IsBlank(gap2)
    requires tail == [] || !IsNumeralChar(tail[0])
    ensures MatchTabular(TabularText(indent, row, gap1, gap2, tail)) == Some(row)
  {
    var r3 := gap2 + (row.throughput + tail);
    var r1 := gap1 + (row.latency + r3);
    var body := row.uops + r1;
    assert TabularText(indent, row, gap1, gap2, tail) == indent + body;
    LStripAfterBlank(indent, body);
    assert IsSpace(r1[0]);
    DigitsOf(row.uops, r1);
    TableUopsThen(indent + body, row.uops, r1);
    TableAfterGap(row, gap1, gap2, tail);
  }

  /** Once the uops digits and a space are read, the match continues with the latency. */
  lemma TableUopsThen(line: string, uops: string, r1: string)
    requires Digits(LStrip(line)) == Some((uops, r1)) && r1 != [] && IsSpace(r1[0])
    ensures uops != [] && AllDigits(uops)
    ensures MatchTabular(line) == TableLatency(uops, LStrip(r1))
  {
  }

  lemma TableAfterGap(row: TableRow, gap1: string, gap2: string, tail: string)
    requires WellFormedTableRow(row) && gap1 != [] && IsBlank(gap1) && gap2 != [] && IsBlank(gap2)
    requires tail == [] || !IsNumeralChar(tail[0])
    ensures TableLatency(row.uops, LStrip(gap1 + (row.latency + (gap2 + (row.throughput + tail))))) == Some(row)
  {
    assert IsDigit(row.latency[0]);
    LStripAfterBlank(gap1, row.latency + (gap2 + (row.throughput + tail)));
    TableLatencyOf(row, gap2, tail);
  }

  lemma TableLatencyOf(row: TableRow, gap2: string, tail: string)
    requires WellFormedTableRow(row) && gap2 != [] && IsBlank(gap2)
    requires tail == [] || !IsNumeralChar(tail[0])
    ensures TableLatency(row.uops, row.latency + (gap2 + (row.throughput + tail))) == Some(row)
  {
    var r3 := gap2 + (row.throughput + tail);
    DigitsOf(row.latency, r3);
    assert IsNumeralChar(row.throughput[0]);
    LStripAfterBlank(gap2, row.throughput + tail);
    NumeralOf(row.throughput, tail);
  }

  predicate IsTableHeader(line: string) {
    Contains(line, "[1]") && Contains(line, "[2]")
  }

  // ---------------------------------------------------------------------------
  // The state machine
  // ---------------------------------------------------------------------------

  /** A bracketed row stores its latency under the row's own index; `float()` may reject a numeral. */
  function StoreBracketed(st: McaState, row: BracketRow): (r: Result<McaState, ParseError>)
    requires AllDigits(row.index) && AllDigits(row.latency)
    ensures r.Success? ==> r.value == st.(stats := r.value.stats)
    ensures r.Success? ==> r.value.stats.Keys == st.stats.Keys + {DecimalValue(row.index)}
    ensures r.Success? ==> r.value.stats[DecimalValue(row.index)].latency == DecimalValue(row.latency)
    ensures r.Success? <==> FloatParses(row.uops) && FloatParses(row.throughput)
  {
    if !FloatParses(row.uops) then Failure(InvalidFloat(row.uops))
    else if !FloatParses(row.throughput) then Failure(InvalidFloat(row.throughput))
    else
      var entry := InstructionStats(DecimalValue(row.latency), row.uops, row.throughput);
      Success(st.(stats := st.stats[DecimalValue(row.index) := entry]))
  }

  /** A tabular row is stored under the next ordinal, which then advances by one. */
  function StoreTabular(st: McaState, row: TableRow): (r: Result<McaState, ParseError>)
    requires AllDigits(row.latency)
    ensures r.Success? ==> r.value == st.(stats := r.value.stats, currentIdx := st.currentIdx + 1)
    ensures r.Success? ==> r.value.stats.Keys == st.stats.Keys + {st.currentIdx}
    ensures r.Success? ==> r.value.stats[st.currentIdx].latency == DecimalValue(row.latency)
    ensures r.Success? <==> FloatParses(row.throughput)
  {
    if !FloatParses(row.throughput) then Failure(InvalidFloat(row.throughput))
    else
      var entry := InstructionStats(DecimalValue(row.latency), row.uops, row.throughput);
      Success(st.(stats := st.stats[st.currentIdx := entry], currentIdx := st.currentIdx + 1))
  }

  /** A non-marker line inside the section: blank test, header test, bracketed shape, tabular shape. */
  function SectionLine(st: McaState, line: string): (r: Result<McaState, ParseError>)
    ensures r.Success? ==> st.currentIdx <= r.value.currentIdx <= st.currentIdx + 1
    ensures r.Success? ==> (st.headerSeen ==> r.value.headerSeen)
    ensures r.Success? ==> st.stats.Keys <= r.value.stats.Keys
    ensures r.Success? && r.value.currentIdx != st.currentIdx ==>
      && st.headerSeen && MatchBracketed(line).None? && MatchTabular(line).Some?
      && r.value.stats.Keys == st.stats.Keys + {st.currentIdx}
  {
    if Strip(line) == [] then
      Success(if st.stats != map[] then st.(inInfoSection := false) else st)
    else if IsTableHeader(line) then Success(st.(headerSeen := true))
    else RowLine(st, line)
  }

  /** A data line: the bracketed shape first, then (after the header only) the tabular shape. */
  function RowLine(st: McaState, line: string): (r: Result<McaState, ParseError>)
    ensures r.Success? ==> st.currentIdx <= r.value.currentIdx <= st.currentIdx + 1
    ensures r.Success? ==> r.value.headerSeen == st.headerSeen && r.value.inInfoSection == st.inInfoSection
    ensures r.Success? ==> st.stats.Keys <= r.value.stats.Keys
    ensures r.Success? && r.value.currentIdx != st.currentIdx ==>
      && st.headerSeen && MatchBracketed(line).None? && MatchTabular(line).Some?
      && r.value.stats.Keys == st.stats.Keys + {st.currentIdx}
    // a line of neither shape, or a non-bracketed line before the header, is ignored
    ensures MatchBracketed(line).None? && (!st.headerSeen || MatchTabular(line).None?) ==> r == Success(st)
  {
    match MatchBracketed(line)
    case Some(row) => StoreBracketed(st, row)
    case None => if !st.headerSeen then Success(st) else TabularLine(st, line)
  }

  /** A line that is not a bracketed row, once the table header has been seen. */
  function TabularLine(st: McaState, line: string): (r: Result<McaState, ParseError>)
    ensures r.Success? && r.value != st ==>
      && MatchTabular(line).Some? && r.value.currentIdx == st.currentIdx + 1
      && r.value.stats.Keys == st.stats.Keys + {st.currentIdx}
    ensures r.Success? ==> r.value == st.(stats := r.value.stats, currentIdx := r.value.currentIdx)
  {
    match MatchTabular(line)
    case None => Success(st)
    case Some(row) => StoreTabular(st, row)
  }

  /** One iteration of the parser's loop. */
  function Step(st: McaState, line: string): (r: Result<McaState, ParseError>)
    // the counter and the header flag are never reset; entries are never removed
    ensures r.Success? ==> st.currentIdx <= r.value.currentIdx <= st.currentIdx + 1
    ensures r.Success? ==> (st.headerSeen ==> r.value.headerSeen)
    ensures r.Success? ==> st.stats.Keys <= r.value.stats.Keys
    // outside the section only a marker line does anything
    ensures !st.inInfoSection && !Contains(line, SectionMarker) ==> r == Success(st)
    // the tabular counter advances only on a tabular row after the header, storing that ordinal
    ensures r.Success? && r.value.currentIdx != st.currentIdx ==>
      && st.inInfoSection && st.headerSeen && MatchBracketed(line).None? && MatchTabular(line).Some?
      && r.value.stats.Keys == st.stats.Keys + {st.currentIdx}
    // inside the section, a non-blank, non-header line that is no row (or a tabular row
    // before the header) changes nothing
    ensures
      && st.inInfoSection && !Contains(line, SectionMarker) && Strip(line) != [] && !IsTableHeader(line)
      && MatchBracketed(line).None? && (!st.headerSeen || MatchTabular(line).None?)
      ==> r == Success(st)
  {
    if Contains(line, SectionMarker) then Success(st.(inInfoSection := true))
    else if !st.inInfoSection then Success(st)
    else SectionLine(st, line)
  }

  /** The loop over all remaining lines; the first `float()` failure ends the parse. */
  function Run(st: McaState, lines: seq<string>): Result<McaState, ParseError>
    decreases |lines|
  {
    if lines == [] then Success(st)
    else match Step(st, lines[0])
      case Failure(e) => Failure(e)
      case Success(st') => Run(st', lines[1..])
  }

  function ParseSpec(lines: seq<string>): Result<map<nat, InstructionStats>, ParseError> {
    match Run(Initial, lines)
    case Success(st) => Success(st.stats)
    case Failure(e) => Failure(e)
  }

  /** `parse_mca_output`: the imperative loop, proved to compute `ParseSpec`. */
  method ParseMcaOutput(lines: seq<string>) returns (r: Result<map<nat, InstructionStats>, ParseError>)
    ensures r == ParseSpec(lines)
  {
    var statsMap: map<nat, InstructionStats> := map[];
    var inInfoSection := false;
    var headerSeen := false;
    var currentIdx: nat := 0;
    var i := 0;
    while i < |lines|
      invariant 0 <= i <= |lines|
      invariant Run(Initial, lines) == Run(McaState(inInfoSection, headerSeen, currentIdx, statsMap), lines[i..])
    {
      var line := lines[i];
      RunUnfold(McaState(inInfoSection, headerSeen, currentIdx, statsMap), lines, i);
      if Contains(line, SectionMarker) {
        inInfoSection := true;
        i := i + 1;
        continue;
      }
      if inInfoSection {
        var next := ParseSectionLine(headerSeen, currentIdx, statsMap, line);
        if next.Failure? {
          return Failure(next.error);
        }
        inInfoSection, headerSeen, currentIdx, statsMap :=
          next.value.inInfoSection, next.value.headerSeen, next.value.currentIdx, next.value.stats;
      }
      i := i + 1;
    }
    assert lines[i..] == [];
    r := Success(statsMap);
  }

  /** The body of the loop for a non-marker line inside the section. */
  method ParseSectionLine(headerSeen: bool, currentIdx: nat, statsMap: map<nat, InstructionStats>, line: string)
    returns (r: Result<McaState, ParseError>)
    ensures r == SectionLine(McaState(true, headerSeen, currentIdx, statsMap), line)
  {
    var st := McaState(true, headerSeen, currentIdx, statsMap);
    if Strip(line) == [] {
      if statsMap != map[] {
        return Success(st.(inInfoSection := false));
      }
      return Success(st);
    }
    if Contains(line, "[1]") && Contains(line, "[2]") {
      return Success(st.(headerSeen := true));
    }
    r := ParseRow(st, line);
  }

  /** The two row shapes of the loop body, tried in order. */
  method ParseRow(st: McaState, line: string) returns (r: Result<McaState, ParseError>)
    ensures r == RowLine(st, line)
  {
    var legacy := MatchBracketed(line);
    if legacy.Some? {
      var row := legacy.value;
      if !FloatParses(row.uops) {
        return Failure(InvalidFloat(row.uops));
      }
      if !FloatParses(row.throughput) {
        return Failure(InvalidFloat(row.throughput));
      }
      var entry := InstructionStats(DecimalValue(row.latency), row.uops, row.throughput);
      return Success(st.(stats := st.stats[DecimalValue(row.index) := entry]));
    }
    if st.headerSeen {
      r := ParseTabularRow(st, line);
    } else {
      r := Success(st);
    }
  }

  /** The table-format attempt of the loop body. */
  method ParseTabularRow(st: McaState, line: string) returns (r: Result<McaState, ParseError>)
    ensures r == TabularLine(st, line)
  {
    var table := MatchTabular(line);
    if table.Some? {
      var row := table.value;
      if !FloatParses(row.throughput) {
        return Failure(InvalidFloat(row.throughput));
      }
      var entry := InstructionStats(DecimalValue(row.latency), row.uops, row.throughput);
      StoreTabularSuccess(st, row);
      return Success(st.(stats := st.stats[st.currentIdx := entry], currentIdx := st.currentIdx + 1));
    }
    return Success(st);
  }

  lemma StoreTabularSuccess(st: McaState, row: TableRow)
    requires AllDigits(row.latency) && FloatParses(row.throughput)
    ensures StoreTabular(st, row) == Success(st.(stats := st.stats[st.currentIdx :=
      InstructionStats(DecimalValue(row.latency), row.uops, row.throughput)], currentIdx := st.currentIdx + 1))
  {
  }

  /** One turn of `Run` from position `i`. */
  lemma RunUnfold(st: McaState, lines: seq<string>, i: nat)
    requires i < |lines|
    ensures Step(st, lines[i]).Success? ==> Run(st, lines[i..]) == Run(Step(st, lines[i]).value, lines[i + 1..])
    ensures Step(st, lines[i]).Failure? ==> Run(st, lines[i..]) == Failure(Step(st, lines[i]).error)
  {
    assert lines[i..][1..] == lines[i + 1..];
  }

  // ---------------------------------------------------------------------------
  // Properties of the parse
  // ---------------------------------------------------------------------------

  predicate NoMarker(lines: seq<string>) {
    forall k :: 0 <= k < |lines| ==> !Contains(lines[k], SectionMarker)
  }

  /** Outside the section, lines without a marker change nothing. */
  lemma {:induction false} ClosedSectionIgnoresLines(st: McaState, lines: seq<string>)
    requires !st.inInfoSection && NoMarker(lines)
    ensures Run(st, lines) == Success(st)
    decreases |lines|
  {
    if lines != [] {
      assert NoMarker(lines[1..]) by {
        forall k | 0 <= k < |lines| - 1 ensures !Contains(lines[1..][k], SectionMarker) {
          assert lines[1..][k] == lines[k + 1];
        }
      }
      ClosedSectionIgnoresLines(st, lines[1..]);
    }
  }

  /** Text with no `Instruction Info:` line (empty text and garbage included) yields an empty map. */
  lemma NoMarkerYieldsEmpty(lines: seq<string>)
    requires NoMarker(lines)
    ensures ParseSpec(lines) == Success(map[])
  {
    ClosedSectionIgnoresLines(Initial, lines);
  }

  /** `current_idx` and `header_seen` are never reset and entries are never removed. */
  lemma {:induction false} RunMonotone(st: McaState, lines: seq<string>)
    ensures Run(st, lines).Success? ==>
      && st.currentIdx <= Run(st, lines).value.currentIdx
      && (st.headerSeen ==> Run(st, lines).value.headerSeen)
      && st.stats.Keys <= Run(st, lines).value.stats.Keys
    decreases |lines|
  {
    if lines != [] {
      match Step(st, lines[0])
      case Failure(_) =>
      case Success(st') => RunMonotone(st', lines[1..]);
    }
  }

  /** The tabular counter counts stored tabular rows: every index below it holds an entry. */
  predicate CounterStored(st: McaState) {
    forall k :: 0 <= k < st.currentIdx ==> k in st.stats
  }

  lemma {:induction false} CounterKeysStored(st: McaState, lines: seq<string>)
    requires CounterStored(st)
    ensures Run(st, lines).Success? ==> CounterStored(Run(st, lines).value)
    decreases |lines|
  {
    if lines != [] {
      var r := Step(st, lines[0]);
      if r.Success? {
        CounterStoredAdvance(st, r.value);
        CounterKeysStored(r.value, lines[1..]);
      }
    }
  }

  /** A state change of the kind `Step` makes keeps every ordinal below the counter stored. */
  lemma CounterStoredAdvance(st: McaState, st': McaState)
    requires CounterStored(st)
    requires st.currentIdx <= st'.currentIdx <= st.currentIdx + 1 && st.stats.Keys <= st'.stats.Keys
    requires st'.currentIdx != st.currentIdx ==> st'.stats.Keys == st.stats.Keys + {st.currentIdx}
    ensures CounterStored(st')
  {
    forall k | 0 <= k < st'.currentIdx ensures k in st'.stats {
      if k < st.currentIdx {
        assert k in st.stats.Keys;
      } else {
        assert k in st.stats.Keys + {st.currentIdx};
      }
    }
  }

  /** A line that matches a row shape is not blank. */
  lemma RowLineNotBlank(line: string)
    requires MatchBracketed(line).Some? || MatchTabular(line).Some?
    ensures Strip(line) != []
  {
    var t := LStrip(line);
    assert t != [];
    assert line[|line| - |t|] == t[0];
    StripEmptyIffBlank(line);
  }

  /**
    Inside the section, a bracketed row (that is neither a marker nor a header line) stores its
    latency under its own index `i`, taken literally; an entry already under `i` is overwritten.
  */
  lemma BracketedRowStored(st: McaState, line: string)
    requires st.inInfoSection && !Contains(line, SectionMarker) && !IsTableHeader(line)
    requires MatchBracketed(line).Some?
    requires FloatParses(MatchBracketed(line).value.uops) && FloatParses(MatchBracketed(line).value.throughput)
    ensures
      var row := MatchBracketed(line).value;
      Step(st, line) == Success(st.(stats := st.stats[DecimalValue(row.index) :=
        InstructionStats(DecimalValue(row.latency), row.uops, row.throughput)]))
  {
    RowLineNotBlank(line);
  }

  /**
    Tabular rows count only after the `[1]`/`[2]` header: before it, an
    in-section line that is not a bracketed row is ignored even when it has
    the tabular shape.
  */
  lemma TabularRowBeforeHeaderIgnored(st: McaState, line: string)
    requires st.inInfoSection && !st.headerSeen && !Contains(line, SectionMarker) && !IsTableHeader(line)
    requires MatchBracketed(line).None? && MatchTabular(line).Some?
    ensures Step(st, line) == Success(st)
  {
    RowLineNotBlank(line);
  }

  /**
    After the header, a tabular row that is not also a bracketed row is stored under the
    current ordinal, and the ordinal advances by one.
  */
  lemma TabularRowStored(st: McaState, line: string)
    requires st.inInfoSection && st.headerSeen && !Contains(line, SectionMarker) && !IsTableHeader(line)
    requires MatchBracketed(line).None? && MatchTabular(line).Some?
    requires FloatParses(MatchTabular(line).value.throughput)
    ensures
      var row := MatchTabular(line).value;
      Step(st, line) == Success(st.(stats := st.stats[st.currentIdx :=
        InstructionStats(DecimalValue(row.latency), row.uops, row.throughput)], currentIdx := st.currentIdx + 1))
  {
    RowLineNotBlank(line);
    var row := MatchTabular(line).value;
    assert Step(st, line) == RowLine(st, line);
    assert RowLine(st, line) == StoreTabular(st, row);
    StoreTabularSuccess(st, row);
  }

  /** A line the loop takes as a tabular row that `float()` accepts. */
  predicate IsTabularRow(line: string) {
    && !Contains(line, SectionMarker) && !IsTableHeader(line)
    && MatchBracketed(line).None? && MatchTabular(line).Some?
    && FloatParses(MatchTabular(line).value.throughput)
  }

  /** Every line is a tabular row. */
  predicate AllTabular(rows: seq<string>)
    decreases |rows|
  {
    rows == [] || (IsTabularRow(rows[0]) && AllTabular(rows[1..]))
  }

  /** The entries tabular rows store, in row order. */
  function TabularEntries(rows: seq<string>): (es: seq<InstructionStats>)
    requires AllTabular(rows)
    ensures |es| == |rows|
    decreases |rows|
  {
    if rows == [] then []
    else
      var row := MatchTabular(rows[0]).value;
      [InstructionStats(DecimalValue(row.latency), row.uops, row.throughput)] + TabularEntries(rows[1..])
  }

  /** Stores `es` under consecutive ordinals from the current one on. */
  function Numbered(st: McaState, es: seq<InstructionStats>): McaState
    decreases |es|
  {
    if es == [] then st
    else Numbered(st.(stats := st.stats[st.currentIdx := es[0]], currentIdx := st.currentIdx + 1), es[1..])
  }

  /** Numbering stores entry `k` under ordinal `currentIdx + k` and keeps the entries below the ordinal. */
  lemma {:induction false} NumberedStores(st: McaState, es: seq<InstructionStats>)
    ensures Numbered(st, es).currentIdx == st.currentIdx + |es|
    ensures Numbered(st, es).inInfoSection == st.inInfoSection && Numbered(st, es).headerSeen == st.headerSeen
    ensures forall j :: st.currentIdx <= j < st.currentIdx + |es| ==>
      j in Numbered(st, es).stats && Numbered(st, es).stats[j] == es[j - st.currentIdx]
    ensures forall j :: j in st.stats && j < st.currentIdx ==>
      j in Numbered(st, es).stats && Numbered(st, es).stats[j] == st.stats[j]
    decreases |es|
  {
    if es != [] {
      var st' := st.(stats := st.stats[st.currentIdx := es[0]], currentIdx := st.currentIdx + 1);
      NumberedStores(st', es[1..]);
      forall j | st.currentIdx <= j < st.currentIdx + |es|
        ensures j in Numbered(st, es).stats && Numbered(st, es).stats[j] == es[j - st.currentIdx]
      {
        if j > st.currentIdx {
          assert es[1..][j - st'.currentIdx] == es[j - st.currentIdx];
        } else {
          assert st.currentIdx in st'.stats && st.currentIdx < st'.currentIdx;
        }
      }
    }
  }

  /**
    Consecutive tabular rows after the header are numbered in encounter order from the
    current ordinal on (see `NumberedStores`), and the parse does not fail on them.
  */
  lemma {:induction false} TabularRowsNumbered(st: McaState, rows: seq<string>)
    requires st.inInfoSection && st.headerSeen && AllTabular(rows)
    ensures Run(st, rows) == Success(Numbered(st, TabularEntries(rows)))
    decreases |rows|
  {
    if rows != [] {
      var es := TabularEntries(rows);
      var st' := st.(stats := st.stats[st.currentIdx := es[0]], currentIdx := st.currentIdx + 1);
      TabularFirst(st, rows);
      TabularRowsNumbered(st', rows[1..]);
      NumberedFirst(st, es);
    }
  }

  lemma NumberedFirst(st: McaState, es: seq<InstructionStats>)
    requires es != []
    ensures Numbered(st, es) == Numbered(st.(stats := st.stats[st.currentIdx := es[0]], currentIdx := st.currentIdx + 1), es[1..])
  {
  }

  lemma TabularFirst(st: McaState, rows: seq<string>)
    requires st.inInfoSection && st.headerSeen && rows != [] && AllTabular(rows)
    ensures AllTabular(rows[1..]) && TabularEntries(rows)[1..] == TabularEntries(rows[1..])
    ensures Run(st, rows) ==
      Run(st.(stats := st.stats[st.currentIdx := TabularEntries(rows)[0]], currentIdx := st.currentIdx + 1), rows[1..])
  {
    TabularRowStored(st, rows[0]);
  }

  /** A line missing some character of the marker, or the digit `2`, is neither a marker nor a header. */
  lemma PlainRowLine(line: string)
    requires 'I' !in line && '2' !in line
    ensures !Contains(line, SectionMarker) && !IsTableHeader(line)
  {
    if Contains(line, SectionMarker) {
      ContainsChars(line, SectionMarker, 0);
    }
    if Contains(line, "[2]") {
      ContainsChars(line, "[2]", 1);
    }
  }

  lemma FloatParsesOfDecimal(whole: char, frac: string)
    requires IsDigit(whole) && AllDigits(frac)
    ensures FloatParses([whole] + "." + frac)
  {
    var n := [whole] + "." + frac;
    assert IsDigit(n[0]);
    assert n[1..] == "." + frac;
    assert ("." + frac)[1..] == frac;
    NoDots(frac);
  }

  lemma {:induction false} NoDots(s: string)
    requires AllDigits(s)
    ensures DotCount(s) == 0
    decreases |s|
  {
    if s != [] {
      NoDots(s[1..]);
    }
  }

  const ExampleRow0: string := "[0]: {1, 0.50, 0.50}"
  const ExampleRow1: string := "[1]: {3, 1.00, 1.00}"

  lemma ExampleRow0Text()
    ensures ExampleRow0 == BracketedText(BracketRow("0", "1", "0.50", "0.50"), "}")
  {
  }

  lemma ExampleRow1Text()
    ensures ExampleRow1 == BracketedText(BracketRow("1", "3", "1.00", "1.00"), "}")
  {
  }

  lemma ExampleRowsPlain()
    ensures 'I' !in ExampleRow0 && '2' !in ExampleRow0 && 'I' !in ExampleRow1 && '2' !in ExampleRow1
  {
  }

  lemma ExampleFields()
    ensures WellFormedBracketRow(BracketRow("0", "1", "0.50", "0.50"))
    ensures WellFormedBracketRow(BracketRow("1", "3", "1.00", "1.00"))
    ensures FloatParses("0.50") && FloatParses("1.00")
    ensures DecimalValue("0") == 0 && DecimalValue("1") == 1 && DecimalValue("3") == 3
  {
    FloatParsesOfDecimal('0', "50");
    assert ['0'] + "." + "50" == "0.50";
    FloatParsesOfDecimal('1', "00");
    assert ['1'] + "." + "00" == "1.00";
  }

  lemma ExampleRow0Stored(st: McaState)
    requires st.inInfoSection
    ensures Step(st, ExampleRow0) == Success(st.(stats := st.stats[0 := InstructionStats(1, "0.50", "0.50")]))
  {
    ExampleRow0Text();
    ExampleRowsPlain();
    ExampleFields();
    MatchBracketedRoundTrip(BracketRow("0", "1", "0.50", "0.50"), "}");
    PlainRowLine(ExampleRow0);
    BracketedRowStored(st, ExampleRow0);
  }

  lemma ExampleRow1Stored(st: McaState)
    requires st.inInfoSection
    ensures Step(st, ExampleRow1) == Success(st.(stats := st.stats[1 := InstructionStats(3, "1.00", "1.00")]))
  {
    ExampleRow1Text();
    ExampleRowsPlain();
    ExampleFields();
    MatchBracketedRoundTrip(BracketRow("1", "3", "1.00", "1.00"), "}");
    PlainRowLine(ExampleRow1);
    BracketedRowStored(st, ExampleRow1);
  }

  /** Two bracketed rows after the marker: ordinal 0 has latency 1, ordinal 1 has latency 3. */
  lemma BracketedExample()
    ensures ParseSpec(["Instruction Info:", ExampleRow0, ExampleRow1])
      == Success(map[0 := InstructionStats(1, "0.50", "0.50"), 1 := InstructionStats(3, "1.00", "1.00")])
  {
    var lines := ["Instruction Info:", ExampleRow0, ExampleRow1];
    var st1 := Initial.(inInfoSection := true);
    assert SectionMarker <= lines[0];
    assert Step(Initial, lines[0]) == Success(st1);
    ExampleRow0Stored(st1);
    var st2 := st1.(stats := st1.stats[0 := InstructionStats(1, "0.50", "0.50")]);
    ExampleRow1Stored(st2);
    var st3 := st2.(stats := st2.stats[1 := InstructionStats(3, "1.00", "1.00")]);
    RunUnfold(Initial, lines, 0);
    RunUnfold(st1, lines, 1);
    RunUnfold(st2, lines, 2);
    assert lines[3..] == [];
    assert st3.stats == map[0 := InstructionStats(1, "0.50", "0.50"), 1 := InstructionStats(3, "1.00", "1.00")];
  }

  /** Blank lines in an open section that has no entry yet are skipped without closing it. */
  lemma {:induction false} LeadingBlanksKeepSectionOpen(st: McaState, blanks: seq<string>, rest: seq<string>)
    requires st.inInfoSection && st.stats == map[]
    requires forall k :: 0 <= k < |blanks| ==> IsBlank(blanks[k])
    ensures Run(st, blanks + rest) == Run(st, rest)
    decreases |blanks|
  {
    if blanks != [] {
      var b := blanks[0];
      StripEmptyIffBlank(b);
      BlankHasNoMarker(b);
      assert Step(st, b) == Success(st);
      assert (blanks + rest)[1..] == blanks[1..] + rest;
      LeadingBlanksKeepSectionOpen(st, blanks[1..], rest);
    } else {
      assert blanks + rest == rest;
    }
  }

  /** A blank line in an open section closes it once an entry is stored. */
  lemma BlankLineClosesNonEmptySection(st: McaState, b: string, rest: seq<string>)
    requires st.inInfoSection && st.stats != map[] && IsBlank(b)
    ensures Run(st, [b] + rest) == Run(st.(inInfoSection := false), rest)
  {
    StripEmptyIffBlank(b);
    BlankHasNoMarker(b);
    assert ([b] + rest)[1..] == rest;
  }

  /** After the section closes nothing is recorded until a marker line reopens it. */
  lemma ClosedUntilReopened(st: McaState, gap: seq<string>, marker: string, rest: seq<string>)
    requires !st.inInfoSection && NoMarker(gap) && Contains(marker, SectionMarker)
    ensures Run(st, gap + [marker] + rest) == Run(st.(inInfoSection := true), rest)
  {
    var tail := [marker] + rest;
    assert gap + [marker] + rest == gap + tail;
    RunAppend(st, gap, tail);
    ClosedSectionIgnoresLines(st, gap);
    MarkerOpensSection(st, marker, rest);
  }

  /** A marker line opens the section, whatever the state. */
  lemma MarkerOpensSection(st: McaState, marker: string, rest: seq<string>)
    requires Contains(marker, SectionMarker)
    ensures Run(st, [marker] + rest) == Run(st.(inInfoSection := true), rest)
  {
    var lines := [marker] + rest;
    assert lines[0] == marker && lines[1..] == rest;
    assert Step(st, marker) == Success(st.(inInfoSection := true));
  }

  /** Running over `a + b` runs over `a`, then over `b` from the state reached. */
  lemma {:induction false} RunAppend(st: McaState, a: seq<string>, b: seq<string>)
    ensures Run(st, a + b) == match Run(st, a) case Failure(e) => Failure(e) case Success(s) => Run(s, b)
    decreases |a|
  {
    if a == [] {
      assert a + b == b;
    } else {
      assert (a + b)[0] == a[0];
      assert (a + b)[1..] == a[1..] + b;
      match Step(st, a[0])
      case Failure(_) =>
      case Success(st') => RunAppend(st', a[1..], b);
    }
  }

  lemma BlankHasNoMarker(b: string)
    requires IsBlank(b)
    ensures !Contains(b, SectionMarker)
  {
    if Contains(b, SectionMarker) {
      ContainsNonBlank(b, SectionMarker);
    }
  }

  /** A string containing text with a non-space character is not blank. */
  lemma {:induction false} ContainsNonBlank(s: string, t: string)
    requires Contains(s, t) && t != [] && !IsSpace(t[0])
    ensures !IsBlank(s)
    decreases |s|
  {
    if t <= s {
      assert !IsSpace(s[0]);
    } else {
      ContainsNonBlank(s[1..], t);
      var i :| 0 <= i < |s[1..]| && !IsSpace(s[1..][i]);
      assert !IsSpace(s[i + 1]);
    }
  }
}
