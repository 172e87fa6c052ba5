/**
  The instruction help panel: the mnemonic under the cursor is looked up in
  the reference table, first by exact name, then by the first key whose
  leading name starts the mnemonic.

  The panel's rendering is reduced to the prompt it shows: the empty prompt,
  "no detailed help" for a mnemonic, or the help of one table entry.
*/
module InstructionHelp {
  import opened Wrappers
  import opened TextUtil
  import opened Highlighter
  import opened AsmHelp

  datatype Prompt =
    | Empty
    | Unknown(mnemonic: string)
    | Shown(mnemonic: string, key: string, help: Help)

  // ---------------------------------------------------------------------------
  // Choosing the mnemonic
  // ---------------------------------------------------------------------------

  /** Blank lines and labels show the empty prompt. */
  predicate IsBlankOrLabel(stripped: string) {
    stripped == [] || stripped[|stripped| - 1] == ':'
  }

  /**
    The mnemonic of a line: the first word the highlighter's vocabulary
    accepts, else the first word unless it is a directive, upper-cased.
  */
  function MnemonicOf(stripped: string): Option<string> {
    match FindInstruction(stripped)
    case Some(w) => Some(Upper(w))
    case None =>
      var parts := Words(stripped);
      if parts != [] && !("." <= parts[0]) then Some(Upper(parts[0])) else None
  }

  // ---------------------------------------------------------------------------
  // The two passes over the table
  // ---------------------------------------------------------------------------

  /** The exact pass accepts entry `k`: one of its names is the mnemonic, or it is the `B.` key. */
  predicate ExactHit(m: string, k: nat)
    requires k < Count
  {
    m in SplitOn(Key(k), '/') || ("B." <= m && Key(k) == "B.")
  }

  /** The prefix pass accepts entry `k`: its first name, at least two long, starts the mnemonic. */
  predicate PrefixHit(m: string, k: nat)
    requires k < Count
  {
    var primary := Primary(k);
    primary <= m && |primary| >= 2
  }

  /** The exact pass's test, entry by entry. */
  function ExactHits(m: string): (hits: seq<bool>)
    ensures |hits| == Count
  {
    seq(Count, k requires 0 <= k < Count => ExactHit(m, k))
  }

  /** The prefix pass's test, entry by entry. */
  function PrefixHits(m: string): (hits: seq<bool>)
    ensures |hits| == Count
  {
    seq(Count, k requires 0 <= k < Count => PrefixHit(m, k))
  }

  /** The first position from `from` on whose test succeeds: where a pass that breaks at its first hit stops. */
  function FirstTrue(hits: seq<bool>, from: nat): (r: Option<nat>)
    requires from <= |hits|
    ensures r.Some? ==> from <= r.value < |hits|
    decreases |hits| - from
  {
    if from == |hits| then None
    else if hits[from] then Some(from)
    else FirstTrue(hits, from + 1)
  }

  /** The entry shown for a mnemonic: the exact pass, and the prefix pass only if that fails. */
  function Lookup(m: string): Option<nat> {
    var exact := FirstTrue(ExactHits(m), 0);
    if exact.Some? then exact else FirstTrue(PrefixHits(m), 0)
  }

  function PromptFor(m: string): Prompt {
    match Lookup(m)
    case None => Unknown(m)
    case Some(k) => Shown(m, Key(k), Helps(k))
  }

  /** What `show_for_asm_line` displays for a line. */
  function ShowFor(lineText: string): Prompt {
    var stripped := Strip(lineText);
    if IsBlankOrLabel(stripped) then Empty
    else
      match MnemonicOf(stripped)
      case None => Empty
      case Some(m) => PromptFor(m)
  }

  method ShowForAsmLine(lineText: string) returns (prompt: Prompt)
    ensures prompt == ShowFor(lineText)
  {
    var stripped := Strip(lineText);
    if IsBlankOrLabel(stripped) {
      return Empty;
    }
    var mnemonic := ExtractMnemonic(stripped);
    if mnemonic.None? {
      return Empty;
    }
    var m := mnemonic.value;
    assert ShowFor(lineText) == PromptFor(m);
    var hit := LookupHelp(m);
    if hit.None? {
      return Unknown(m);
    }
    var k := hit.value;
    prompt := Shown(m, Key(k), Helps(k));
  }

  /** The mnemonic of a line that is neither blank nor a label. */
  method ExtractMnemonic(stripped: string) returns (mnemonic: Option<string>)
    ensures mnemonic == MnemonicOf(stripped)
  {
    var found := FindInstruction(stripped);
    if found.Some? {
      return Some(Upper(found.value));
    }
    var parts := Words(stripped);
    if |parts| > 0 && !("." <= parts[0]) {
      return Some(Upper(parts[0]));
    }
    return None;
  }

  /** The two passes of `show_for_asm_line` over the table. */
  method LookupHelp(mnemonic: string) returns (hit: Option<nat>)
    ensures hit == Lookup(mnemonic)
  {
    hit := ExactPass(mnemonic);
    if hit.None? {
      hit := PrefixPass(mnemonic);
    }
  }

  /** The first pass: the first entry one of whose names is the mnemonic, or the `B.` entry for `B.` mnemonics. */
  method ExactPass(mnemonic: string) returns (hit: Option<nat>)
    ensures hit == FirstTrue(ExactHits(mnemonic), 0)
  {
    var k := 0;
    while k < Count
      invariant 0 <= k <= Count
      invariant FirstTrue(ExactHits(mnemonic), 0) == FirstTrue(ExactHits(mnemonic), k)
    {
      ExactStep(mnemonic, k);
      var key := Key(k);
      if mnemonic in SplitOn(key, '/') || ("B." <= mnemonic && key == "B.") {
        return Some(k);
      }
      k := k + 1;
    }
    return None;
  }

  /** The second pass: the first entry whose leading name, two or more characters long, starts the mnemonic. */
  method PrefixPass(mnemonic: string) returns (hit: Option<nat>)
    ensures hit == FirstTrue(PrefixHits(mnemonic), 0)
  {
    var k := 0;
    while k < Count
      invariant 0 <= k <= Count
      invariant FirstTrue(PrefixHits(mnemonic), 0) == FirstTrue(PrefixHits(mnemonic), k)
    {
      PrefixStep(mnemonic, k);
      var primary := SplitOn(Key(k), '/')[0];
      if primary <= mnemonic && |primary| >= 2 {
        return Some(k);
      }
      k := k + 1;
    }
    return None;
  }

  /** One step of the exact pass: entry `k` is the answer if accepted, else the search moves on. */
  lemma ExactStep(m: string, k: nat)
    requires k < Count
    ensures var key := Key(k);
      if m in SplitOn(key, '/') || ("B." <= m && key == "B.") then FirstTrue(ExactHits(m), k) == Some(k)
      else FirstTrue(ExactHits(m), k) == FirstTrue(ExactHits(m), k + 1)
  {
  }

  /** One step of the prefix pass. */
  lemma PrefixStep(m: string, k: nat)
    requires k < Count
    ensures var primary := SplitOn(Key(k), '/')[0];
      if primary <= m && |primary| >= 2 then FirstTrue(PrefixHits(m), k) == Some(k)
      else FirstTrue(PrefixHits(m), k) == FirstTrue(PrefixHits(m), k + 1)
  {
    KeyNames(k);
  }

  // ---------------------------------------------------------------------------
  // Properties
  // ---------------------------------------------------------------------------

  /** The search stops at the first success from `from` on: that test succeeds and none before it does. */
  lemma {:induction false} FirstTrueSpec(hits: seq<bool>, from: nat)
    requires from <= |hits|
    ensures var r := FirstTrue(hits, from);
      (r.Some? ==> hits[r.value]) &&
      forall j :: from <= j < |hits| && (r.None? || j < r.value) ==> !hits[j]
    decreases |hits| - from
  {
    if from < |hits| && !hits[from] {
      FirstTrueSpec(hits, from + 1);
    }
  }

  /** The exact pass accepts exactly the entries that hold the mnemonic as a name. */
  lemma ExactHitIff(m: string, k: nat)
    requires k < Count
    ensures ExactHit(m, k) <==> m in Names(k)
  {
    NoBranchKey(k);
    KeyNames(k);
  }

  /** A mnemonic that is a name of entry `k` always shows entry `k`, whatever comes before it. */
  lemma ExactLookup(m: string, k: nat, i: nat)
    requires k < Count && i < |Names(k)| && Names(k)[i] == m
    ensures Lookup(m) == Some(k)
  {
    ExactHitIff(m, k);
    var hits := ExactHits(m);
    assert hits[k];
    FirstTrueSpec(hits, 0);
    var r := FirstTrue(hits, 0);
    assert r.Some?;
    var j := r.value;
    assert hits[j];
    ExactHitIff(m, j);
    var i' :| 0 <= i' < |Names(j)| && Names(j)[i'] == m;
    NamesDistinct(j, i', k, i);
  }

  /**
    A mnemonic that is no name of the table shows the first entry whose
    leading name starts it, and "no detailed help" when there is none.
  */
  lemma PrefixLookup(m: string)
    requires forall k, i :: 0 <= k < Count && 0 <= i < |Names(k)| ==> Names(k)[i] != m
    ensures Lookup(m) == FirstTrue(PrefixHits(m), 0)
    ensures Lookup(m).None? <==> forall k :: 0 <= k < Count ==> !(Primary(k) <= m)
  {
    var hits := ExactHits(m);
    FirstTrueSpec(hits, 0);
    if FirstTrue(hits, 0).Some? {
      var j := FirstTrue(hits, 0).value;
      assert hits[j];
      ExactHitIff(m, j);
      assert false;
    }
    var prefix := PrefixHits(m);
    forall k | 0 <= k < Count ensures prefix[k] <==> Primary(k) <= m {
      FirstNamesLong(k);
    }
    FirstTrueSpec(prefix, 0);
    if FirstTrue(prefix, 0).Some? {
      var j := FirstTrue(prefix, 0).value;
      assert prefix[j];
    }
  }

  /** Whatever is shown names the mnemonic's own entry or an entry whose leading name starts it. */
  lemma ShownEntryMatches(m: string)
    requires Lookup(m).Some?
    ensures var k := Lookup(m).value;
      k < Count && (m in Names(k) || Primary(k) <= m)
  {
    FirstTrueSpec(ExactHits(m), 0);
    FirstTrueSpec(PrefixHits(m), 0);
    var k := Lookup(m).value;
    ExactHitIff(m, k);
    KeyNames(k);
  }

  /** Blank lines and labels show the empty prompt. */
  lemma BlankOrLabelIsEmpty(lineText: string)
    requires IsBlank(lineText) || (Strip(lineText) != [] && Strip(lineText)[|Strip(lineText)| - 1] == ':')
    ensures ShowFor(lineText) == Empty
  {
    StripEmptyIffBlank(lineText);
    assert IsBlankOrLabel(Strip(lineText));
  }

  /** Indentation does not change the prompt. */
  lemma IndentationIgnored(w: string, lineText: string)
    requires IsBlank(w)
    ensures ShowFor(w + lineText) == ShowFor(lineText)
  {
    StripAfterBlank(w, lineText);
  }

  /** A shown or unknown mnemonic is the upper-cased form of a word of the line. */
  lemma MnemonicFromLine(stripped: string)
    requires MnemonicOf(stripped).Some?
    ensures var m := MnemonicOf(stripped).value;
      exists w :: Contains(stripped, w) && w != [] && m == Upper(w)
  {
    match FindInstruction(stripped)
    case Some(w) =>
      FindInstructionSound(stripped);
    case None =>
      FirstWordContained(stripped);
  }

  /** The first whitespace-separated word of a text occurs in it. */
  lemma FirstWordContained(s: string)
    requires Words(s) != []
    ensures Contains(s, Words(s)[0])
  {
    var t := LStrip(s);
    var w := t[..NonSpaceSpan(t)];
    assert Words(s)[0] == w;
    assert Contains(t, w);
    var lead := LStripSplit(s);
    ContainsExtendLeft(lead, t, w);
  }

  // ---------------------------------------------------------------------------
  // Examples
  // ---------------------------------------------------------------------------

  /** The first entry, in table order, that the prefix pass accepts is the one shown. */
  lemma FirstPrefixAt(m: string, k: nat)
    requires k < Count && PrefixHit(m, k)
    requires forall j :: 0 <= j < k ==> !PrefixHit(m, j)
    ensures FirstTrue(PrefixHits(m), 0) == Some(k)
  {
    var hits := PrefixHits(m);
    assert hits[k];
    forall j | 0 <= j < k ensures !hits[j] {
    }
    FirstTrueSpec(hits, 0);
  }

  /** Every variant of MOV (`MOVL`, `MOVSX`, `MOVZX`, ...) shows the MOV entry. */
  lemma MovVariants(suffix: string)
    requires suffix != []
    ensures Lookup("MOV" + suffix) == Some(0) && Key(0) == "MOV"
  {
    var m := "MOV" + suffix;
    NamesOfInitial('M');
    assert m[0] == 'M' && |m| > 3;
    PrefixLookup(m);
    KeyNames(0);
    assert PrefixHit(m, 0);
  }

  /** Every longer form of PUSH (`PUSHQ`, `PUSHL`, ...) shows the PUSH entry. */
  lemma PushVariants(suffix: string)
    requires suffix != []
    ensures Lookup("PUSH" + suffix) == Some(1) && Key(1) == "PUSH"
  {
    var m := "PUSH" + suffix;
    NamesOfInitial('P');
    assert m[0] == 'P' && m[1] == 'U' && |m| > 4;
    PrefixLookup(m);
    KeyNames(0);
    KeyNames(1);
    assert !PrefixHit(m, 0);
    assert PrefixHit(m, 1);
    FirstPrefixAt(m, 1);
  }
}
