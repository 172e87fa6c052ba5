/**
  The floating source peek: for the assembly line under the cursor it finds
  the source line the assembly came from, searching a little way backwards
  when the line itself is unmapped, and shows that source line with one
  line of context above and below.

  The rendered text is reduced to its rows: each row is a 1-based source
  line number, the text of that line, and whether it is the target.
*/
module SourcePeek {
  import opened Wrappers

  /** `range(1, 20)`: offsets 1 to 19 are tried behind an unmapped line. */
  const SearchLimit: nat := 20

  /** One row of the panel. */
  datatype Row = Row(number: int, text: string, isTarget: bool)

  // ---------------------------------------------------------------------------
  // Specification
  // ---------------------------------------------------------------------------

  /** The lines the search consults for `asmLine`: the line itself and up to 19 lines before it, none below 0. */
  predicate Consulted(asmLine: int, j: int) {
    j == asmLine || (asmLine - SearchLimit < j < asmLine && j >= 0)
  }

  /** The backward search from `offset` on: the first offset `k < 20` whose line `asmLine - k` is mapped, stopping below 0. */
  function FirstMapped(mapping: map<int, int>, asmLine: int, offset: nat): (k: Option<nat>)
    requires 1 <= offset <= SearchLimit
    ensures k.Some? ==> offset <= k.value < SearchLimit && asmLine - k.value >= 0 && asmLine - k.value in mapping
    decreases SearchLimit - offset
  {
    if offset == SearchLimit || asmLine - offset < 0 then None
    else if asmLine - offset in mapping then Some(offset)
    else FirstMapped(mapping, asmLine, offset + 1)
  }

  /** The search finds the nearest mapped line: every line it passed over is unmapped. */
  lemma {:induction false} FirstMappedNearest(mapping: map<int, int>, asmLine: int, offset: nat)
    requires 1 <= offset <= SearchLimit
    ensures var k := FirstMapped(mapping, asmLine, offset);
      forall line ::
        (0 <= line && asmLine - SearchLimit < line <= asmLine - offset && (k.None? || asmLine - k.value < line)) ==>
        line !in mapping
    decreases SearchLimit - offset
  {
    if offset < SearchLimit && asmLine - offset >= 0 && asmLine - offset !in mapping {
      FirstMappedNearest(mapping, asmLine, offset + 1);
    }
  }

  /** One step of the search. */
  lemma FirstMappedStep(mapping: map<int, int>, asmLine: int, offset: nat)
    requires 1 <= offset < SearchLimit
    ensures FirstMapped(mapping, asmLine, offset) ==
      if asmLine - offset < 0 then None
      else if asmLine - offset in mapping then Some(offset)
      else FirstMapped(mapping, asmLine, offset + 1)
  {
  }

  /** The source line for `asmLine`: its own mapping, else that of the nearest mapped line behind it. */
  function SourceFor(mapping: map<int, int>, asmLine: int): Option<int> {
    if asmLine in mapping then Some(mapping[asmLine])
    else
      var k := FirstMapped(mapping, asmLine, 1);
      if k.None? then None else Some(mapping[asmLine - k.value])
  }

  /** The rows shown for source line `n`, or `None` when `n` is not a line of the source. */
  function View(lines: seq<string>, n: int): Option<seq<Row>> {
    if lines == [] || n < 1 || n > |lines| then None
    else
      var above := if n >= 2 then [Row(n - 1, lines[n - 2], false)] else [];
      var below := if n < |lines| then [Row(n + 1, lines[n], false)] else [];
      Some(above + [Row(n, lines[n - 1], true)] + below)
  }

  // ---------------------------------------------------------------------------
  // The panel
  // ---------------------------------------------------------------------------

  class SourcePeekPanel {
    var sourceLines: seq<string>
    var asmMapping: map<int, int>
    /** Whether the panel is visible. */
    var display: bool
    /** The rows last rendered. */
    var rows: seq<Row>

    /** A new panel has no source and no mapping, and is hidden until it shows a line. */
    constructor ()
      ensures sourceLines == [] && asmMapping == map[]
      ensures !display && rows == []
    {
      sourceLines := [];
      asmMapping := map[];
      display := false;
      rows := [];
    }

    /** Replaces the source lines and the mapping; what is displayed stays as it is. */
    method UpdateContext(lines: seq<string>, mapping: map<int, int>)
      modifies this
      ensures sourceLines == lines && asmMapping == mapping
      ensures display == old(display) && rows == old(rows)
    {
      sourceLines := lines;
      asmMapping := mapping;
    }

    /**
      Shows the source line for assembly line `asmLine`: visible with the
      rows of that line when one is found and lies in the source, hidden
      otherwise, the rows then left as they were.
    */
    method ShowForAsmLine(asmLine: int)
      modifies this
      ensures sourceLines == old(sourceLines) && asmMapping == old(asmMapping)
      ensures match SourceFor(asmMapping, asmLine)
        case None => !display && rows == old(rows)
        case Some(n) =>
          match View(sourceLines, n)
          case None => !display && rows == old(rows)
          case Some(v) => display && rows == v
    {
      var src := Lookup(asmLine);
      if src.None? {
        display := false;
        return;
      }
      display := true;
      RenderLine(src.value);
    }

    /** The mapping lookup with its backward search. */
    method Lookup(asmLine: int) returns (src: Option<int>)
      ensures src == SourceFor(asmMapping, asmLine)
    {
      if asmLine in asmMapping {
        return Some(asmMapping[asmLine]);
      }
      var offset := 1;
      while offset < SearchLimit
        invariant 1 <= offset <= SearchLimit
        invariant FirstMapped(asmMapping, asmLine, 1) == FirstMapped(asmMapping, asmLine, offset)
      {
        FirstMappedStep(asmMapping, asmLine, offset);
        if asmLine - offset < 0 {
          break;
        }
        if asmLine - offset in asmMapping {
          return Some(asmMapping[asmLine - offset]);
        }
        offset := offset + 1;
      }
      return None;
    }

    /** Renders source line `n` with its context, or hides the panel when `n` is not a line of the source. */
    method RenderLine(n: int)
      modifies this
      ensures sourceLines == old(sourceLines) && asmMapping == old(asmMapping)
      ensures match View(sourceLines, n)
        case None => !display && rows == old(rows)
        case Some(v) => display == old(display) && rows == v
    {
      if |sourceLines| == 0 || n < 1 || n > |sourceLines| {
        display := false;
        return;
      }
      var shown := [];
      if n >= 2 {
        shown := shown + [Row(n - 1, sourceLines[n - 2], false)];
      }
      shown := shown + [Row(n, sourceLines[n - 1], true)];
      if n < |sourceLines| {
        shown := shown + [Row(n + 1, sourceLines[n], false)];
      }
      rows := shown;
    }
  }

  // ---------------------------------------------------------------------------
  // Properties
  // ---------------------------------------------------------------------------

  /** A mapped line uses its own source line. */
  lemma MappedUsesOwn(mapping: map<int, int>, asmLine: int)
    requires asmLine in mapping
    ensures SourceFor(mapping, asmLine) == Some(mapping[asmLine])
  {
  }

  /**
    An unmapped line uses the nearest mapped line at most 19 behind it and
    not below 0; nothing is found exactly when there is no such line.
  */
  lemma NearestBehind(mapping: map<int, int>, asmLine: int)
    requires asmLine !in mapping
    ensures SourceFor(mapping, asmLine).None? <==>
      forall line :: 0 <= line && asmLine - SearchLimit < line < asmLine ==> line !in mapping
    ensures SourceFor(mapping, asmLine).Some? ==>
      exists line :: 0 <= line && asmLine - SearchLimit < line < asmLine && line in mapping &&
        SourceFor(mapping, asmLine).value == mapping[line] &&
        forall l :: line < l < asmLine ==> l !in mapping
  {
    var r := FirstMapped(mapping, asmLine, 1);
    FirstMappedNearest(mapping, asmLine, 1);
    if r.Some? {
      var line := asmLine - r.value;
      assert 0 <= line && asmLine - SearchLimit < line < asmLine && line in mapping;
    }
  }

  /** A negative line only looks itself up. */
  lemma NegativeLooksUpOnly(mapping: map<int, int>, asmLine: int)
    requires asmLine < 0
    ensures SourceFor(mapping, asmLine) == if asmLine in mapping then Some(mapping[asmLine]) else None
  {
  }

  /** Only the consulted lines matter: two mappings that agree on them give the same source line. */
  lemma {:induction false} OnlyConsultedMatter(m1: map<int, int>, m2: map<int, int>, asmLine: int)
    requires forall j :: Consulted(asmLine, j) ==> (j in m1 <==> j in m2)
    requires forall j :: Consulted(asmLine, j) && j in m1 ==> m1[j] == m2[j]
    ensures SourceFor(m1, asmLine) == SourceFor(m2, asmLine)
  {
    if asmLine !in m1 {
      assert Consulted(asmLine, asmLine);
      SearchAgrees(m1, m2, asmLine, 1);
      var r := FirstMapped(m1, asmLine, 1);
      if r.Some? {
        assert Consulted(asmLine, asmLine - r.value);
      }
    }
  }

  lemma {:induction false} SearchAgrees(m1: map<int, int>, m2: map<int, int>, asmLine: int, offset: nat)
    requires 1 <= offset <= SearchLimit
    requires forall j :: Consulted(asmLine, j) ==> (j in m1 <==> j in m2)
    requires forall j :: Consulted(asmLine, j) && j in m1 ==> m1[j] == m2[j]
    ensures FirstMapped(m1, asmLine, offset) == FirstMapped(m2, asmLine, offset)
    decreases SearchLimit - offset
  {
    if offset < SearchLimit && asmLine - offset >= 0 {
      assert Consulted(asmLine, asmLine - offset);
      SearchAgrees(m1, m2, asmLine, offset + 1);
    }
  }

  /**
    The view shows the target line and exactly the neighbours that exist:
    the line above iff the target is not the first, the line below iff it is
    not the last.
  */
  lemma ViewShape(lines: seq<string>, n: int)
    ensures View(lines, n).Some? <==> 1 <= n <= |lines|
    ensures View(lines, n).Some? ==>
      var v := View(lines, n).value;
      var t := if n >= 2 then 1 else 0;
      |v| == t + 1 + (if n < |lines| then 1 else 0) &&
      v[t] == Row(n, lines[n - 1], true) &&
      (n >= 2 ==> v[0] == Row(n - 1, lines[n - 2], false)) &&
      (n < |lines| ==> v[|v| - 1] == Row(n + 1, lines[n], false)) &&
      forall i :: 0 <= i < |v| ==> (v[i].isTarget <==> i == t) && v[i].number == n - t + i
  {
  }
}
