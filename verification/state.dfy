/**
  The application state record: the source being edited, its assembly and
  line mapping, the performance table and the compiler's output. The two
  update operations each overwrite one pair of fields.
*/
module State {
  import PerfParser

  /** The state's fields as one value. */
  datatype StateValue = StateValue(
    sourcePath: string,
    sourceCode: string,
    asmContent: string,
    asmMapping: map<int, int>,
    perfStats: map<int, PerfParser.InstructionStats>,
    rawMcaOutput: string,
    compilerOutput: string,
    isDirty: bool,
    lastUpdate: real)

  /** The value of a state created with only a source path. */
  function Initial(sourcePath: string): StateValue {
    StateValue(sourcePath, "", "", map[], map[], "", "", false, 0.0)
  }

  /** The effect of `update_asm` on a state's value. */
  function WithAsm(s: StateValue, asm: string, mapping: map<int, int>): (r: StateValue)
    ensures r.asmContent == asm && r.asmMapping == mapping
    ensures r.(asmContent := s.asmContent, asmMapping := s.asmMapping) == s
  {
    s.(asmContent := asm, asmMapping := mapping)
  }

  /** The effect of `update_perf` on a state's value. */
  function WithPerf(s: StateValue, stats: map<int, PerfParser.InstructionStats>, raw: string): (r: StateValue)
    ensures r.perfStats == stats && r.rawMcaOutput == raw
    ensures r.(perfStats := s.perfStats, rawMcaOutput := s.rawMcaOutput) == s
  {
    s.(perfStats := stats, rawMcaOutput := raw)
  }

  class LocalBoltState {
    var sourcePath: string
    var sourceCode: string
    var asmContent: string
    var asmMapping: map<int, int>
    var perfStats: map<int, PerfParser.InstructionStats>
    var rawMcaOutput: string
    var compilerOutput: string
    /** Whether a recompile is needed. */
    var isDirty: bool
    var lastUpdate: real

    function Value(): StateValue
      reads this
    {
      StateValue(sourcePath, sourceCode, asmContent, asmMapping, perfStats, rawMcaOutput, compilerOutput, isDirty, lastUpdate)
    }

    /** A new state: empty strings and tables, not dirty, never updated. */
    constructor ()
      ensures Value() == Initial("")
    {
      sourcePath := "";
      sourceCode := "";
      asmContent := "";
      asmMapping := map[];
      perfStats := map[];
      rawMcaOutput := "";
      compilerOutput := "";
      isDirty := false;
      lastUpdate := 0.0;
    }

    /** A new state for a source path, every other field at its default. */
    constructor WithSourcePath(path: string)
      ensures Value() == Initial(path)
    {
      sourcePath := path;
      sourceCode := "";
      asmContent := "";
      asmMapping := map[];
      perfStats := map[];
      rawMcaOutput := "";
      compilerOutput := "";
      isDirty := false;
      lastUpdate := 0.0;
    }

    /** Stores new assembly and its mapping; nothing else changes. */
    method UpdateAsm(asm: string, mapping: map<int, int>)
      modifies this
      ensures Value() == WithAsm(old(Value()), asm, mapping)
    {
      asmContent := asm;
      asmMapping := mapping;
    }

    /** Stores new performance statistics and the raw analyser output; nothing else changes. */
    method UpdatePerf(stats: map<int, PerfParser.InstructionStats>, raw: string)
      modifies this
      ensures Value() == WithPerf(old(Value()), stats, raw)
    {
      perfStats := stats;
      rawMcaOutput := raw;
    }
  }

  // ---------------------------------------------------------------------------
  // Properties
  // ---------------------------------------------------------------------------

  /** A new state is empty apart from its source path. */
  lemma InitialIsEmpty(path: string)
    ensures var s := Initial(path);
      s.sourcePath == path && s.sourceCode == "" && s.asmContent == "" && s.asmMapping == map[] &&
      s.perfStats == map[] && s.rawMcaOutput == "" && s.compilerOutput == "" && !s.isDirty && s.lastUpdate == 0.0
  {
  }

  /** A later assembly update replaces the earlier one entirely: no merging of mappings. */
  lemma AsmUpdateReplaces(s: StateValue, a1: string, m1: map<int, int>, a2: string, m2: map<int, int>)
    ensures WithAsm(WithAsm(s, a1, m1), a2, m2) == WithAsm(s, a2, m2)
  {
  }

  /** A later performance update replaces the earlier one entirely. */
  lemma PerfUpdateReplaces(s: StateValue, t1: map<int, PerfParser.InstructionStats>, r1: string,
                           t2: map<int, PerfParser.InstructionStats>, r2: string)
    ensures WithPerf(WithPerf(s, t1, r1), t2, r2) == WithPerf(s, t2, r2)
  {
  }

  /** The two updates touch disjoint fields, so their order does not matter. */
  lemma UpdatesCommute(s: StateValue, asm: string, mapping: map<int, int>,
                       stats: map<int, PerfParser.InstructionStats>, raw: string)
    ensures WithPerf(WithAsm(s, asm, mapping), stats, raw) == WithAsm(WithPerf(s, stats, raw), asm, mapping)
  {
  }

  /** An assembly update keeps the performance data and the performance update keeps the assembly. */
  lemma UpdatesIndependent(s: StateValue, asm: string, mapping: map<int, int>,
                           stats: map<int, PerfParser.InstructionStats>, raw: string)
    ensures WithAsm(s, asm, mapping).perfStats == s.perfStats && WithAsm(s, asm, mapping).rawMcaOutput == s.rawMcaOutput
    ensures WithPerf(s, stats, raw).asmContent == s.asmContent && WithPerf(s, stats, raw).asmMapping == s.asmMapping
  {
  }
}
