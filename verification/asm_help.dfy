/**
  The instruction reference table: twenty entries in a fixed order, each
  keyed by one or more `/`-separated mnemonic names and holding a
  description, an example and its meaning.
*/
module AsmHelp {
  import opened TextUtil

  /** The value of a table entry: (description, example, meaning). */
  datatype Help = Help(description: string, example: string, meaning: string)

  /** The number of entries. */
  const Count: nat := 20

  /** The names of entry `k`: its key's `/`-separated mnemonics, in the order of the dictionary literal. */
  function Names(k: nat): (names: seq<string>)
    requires k < Count
  {
    match k
    case 0 => ["MOV"]
    case 1 => ["PUSH"]
    case 2 => ["POP"]
    case 3 => ["ADD"]
    case 4 => ["SUB"]
    case 5 => ["IMUL"]
    case 6 => ["IDIV"]
    case 7 => ["INC"]
    case 8 => ["DEC"]
    case 9 => ["CMP"]
    case 10 => ["JMP"]
    case 11 => ["JE", "JZ"]
    case 12 => ["JNE", "JNZ"]
    case 13 => ["JG"]
    case 14 => ["JL"]
    case 15 => ["CALL"]
    case 16 => ["RET"]
    case 17 => ["LEA"]
    case 18 => ["AND", "OR", "XOR"]
    case _ => ["NOP"]
  }

  /** The key of entry `k`: its names joined by `/`, as the dictionary spells it. */
  function Key(k: nat): string
    requires k < Count
  {
    Join(Names(k), "/")
  }

  /** The value of entry `k`: its (description, example, meaning). */
  function Helps(k: nat): Help
    requires k < Count
  {
    match k
    case 0 =>
      Help("Copies data from one location to another.", "mov eax, ebx", "Copy value from EBX into EAX")
    case 1 =>
      Help("Pushes a value onto the stack.", "push rax", "Put RAX onto the stack")
    case 2 =>
      Help("Pops a value from the stack into a register.", "pop rdi", "Take value from top of stack into RDI")
    case 3 =>
      Help("Adds two operands and stores the result in the first.", "add eax, 5", "EAX = EAX + 5")
    case 4 =>
      Help("Subtracts the second operand from the first.", "sub rsp, 16", "Allocate 16 bytes on the stack")
    case 5 =>
      Help("Signed multiplication of two operands.", "imul rax, rbx", "RAX = RAX * RBX")
    case 6 =>
      Help("Signed division.", "idiv rcx", "Divide RDX:RAX by RCX")
    case 7 =>
      Help("Increments an operand by 1.", "inc ecx", "ECX = ECX + 1")
    case 8 =>
      Help("Decrements an operand by 1.", "dec edx", "EDX = EDX - 1")
    case 9 =>
      Help("Compares two operands by setting CPU flags.", "cmp eax, 0", "Check if EAX is zero")
    case 10 =>
      Help("Unconditional jump to a label or address.", "jmp .L2", "Always jump to label .L2")
    case 11 =>
      Help("Jump if equal / Jump if zero (ZF=1).", "je .Lerror", "Jump to .Lerror if previous CMP was equal")
    case 12 =>
      Help("Jump if not equal / Jump if not zero (ZF=0).", "jne .Lloop", "Jump to .Lloop if previous CMP was not equal")
    case 13 =>
      Help("Jump if greater (signed).", "jg .Lgreater", "Jump if left > right (signed)")
    case 14 =>
      Help("Jump if less (signed).", "jl .Lless", "Jump if left < right (signed)")
    case 15 =>
      Help("Calls a function; pushes return address to stack.", "call printf", "Execute the printf function")
    case 16 =>
      Help("Returns from a function.", "ret", "Return to the calling function")
    case 17 =>
      Help("Load Effective Address (calculates pointer).", "lea rax, [rbp-8]", "Get the address of a local variable")
    case 18 =>
      Help("Bitwise logical operations.", "xor eax, eax", "Quickly set EAX to zero")
    case _ =>
      Help("No Operation (does nothing for one cycle).", "nop", "Wait/Do nothing for one cycle")
  }

  // ---------------------------------------------------------------------------
  // `key.split('/')`
  // ---------------------------------------------------------------------------

  /** Position of the first `c` in `s`, or `|s|` when there is none. */
  function IndexOf(s: string, c: char): (i: nat)
    ensures i <= |s|
    ensures i < |s| ==> s[i] == c
    ensures c !in s[..i]
  {
    if s == [] then 0
    else if s[0] == c then 0
    else 1 + IndexOf(s[1..], c)
  }

  /** Python's `s.split(c)`: the pieces between the occurrences of `c`, empty ones included. */
  function SplitOn(s: string, c: char): (parts: seq<string>)
    ensures parts != []
    decreases |s|
  {
    var i := IndexOf(s, c);
    if i == |s| then [s] else [s[..i]] + SplitOn(s[i + 1..], c)
  }

  /** `key.split('/')[0]`: the leading name of entry `k`. */
  function Primary(k: nat): string
    requires k < Count
  {
    Names(k)[0]
  }

  /** No piece of a split holds the separator. */
  lemma {:induction false} SplitPiecesFree(s: string, c: char)
    ensures forall i :: 0 <= i < |SplitOn(s, c)| ==> c !in SplitOn(s, c)[i]
    decreases |s|
  {
    var i := IndexOf(s, c);
    if i < |s| {
      SplitPiecesFree(s[i + 1..], c);
    }
  }

  /** Joining the pieces of a split with the separator gives the text back. */
  lemma {:induction false} JoinSplit(s: string, c: char)
    ensures Join(SplitOn(s, c), [c]) == s
    decreases |s|
  {
    var i := IndexOf(s, c);
    if i < |s| {
      var rest := SplitOn(s[i + 1..], c);
      JoinSplit(s[i + 1..], c);
      assert SplitOn(s, c) == [s[..i]] + rest;
      assert ([s[..i]] + rest)[1..] == rest;
      assert s == s[..i] + [c] + s[i + 1..];
    }
  }

  /** A piece with no separator splits into itself. */
  lemma SplitNone(a: string, c: char)
    requires c !in a
    ensures SplitOn(a, c) == [a]
  {
    assert a[..IndexOf(a, c)] == a;
  }

  /** Splitting `a` + `c` + `rest` gives `a`, then the pieces of `rest`. */
  lemma SplitCons(a: string, c: char, rest: string)
    requires c !in a
    ensures SplitOn(a + [c] + rest, c) == [a] + SplitOn(rest, c)
  {
    var s := a + [c] + rest;
    assert IndexOf(s, c) == |a| by {
      assert s[..|a|] == a;
      assert s[|a|] == c;
    }
    assert s[..|a|] == a && s[|a| + 1..] == rest;
  }

  /** Splitting a join of separator-free pieces gives the pieces back. */
  lemma {:induction false} SplitJoin(parts: seq<string>, c: char)
    requires parts != []
    requires forall i :: 0 <= i < |parts| ==> c !in parts[i]
    ensures SplitOn(Join(parts, [c]), c) == parts
    decreases |parts|
  {
    if |parts| == 1 {
      SplitNone(parts[0], c);
    } else {
      var tail := parts[1..];
      forall i | 0 <= i < |tail| ensures c !in tail[i] {
        assert tail[i] == parts[i + 1];
      }
      SplitJoin(tail, c);
      var rest := Join(tail, [c]);
      assert Join(parts, [c]) == parts[0] + [c] + rest;
      SplitCons(parts[0], c, rest);
      assert [parts[0]] + tail == parts;
    }
  }

  /** `key.split('/')` gives back the names of entry `k`. */
  lemma KeyNames(k: nat)
    requires k < Count
    ensures SplitOn(Key(k), '/') == Names(k)
  {
    NamesWellFormed(k);
    var names := Names(k);
    forall i | 0 <= i < |names| ensures '/' !in names[i] {
      assert GoodName(names[i]);
    }
    SplitJoin(names, '/');
  }

  // ---------------------------------------------------------------------------
  // Facts about the table
  // ---------------------------------------------------------------------------

  /** An upper-case word of at least two letters. */
  predicate GoodName(name: string) {
    |name| >= 2 && forall i :: 0 <= i < |name| ==> IsUpper(name[i])
  }

  /** Every name of every key is an upper-case word of at least two letters. */
  lemma NamesWellFormed(k: nat)
    requires k < Count
    ensures forall i :: 0 <= i < |Names(k)| ==> GoodName(Names(k)[i])
  {
  }

  /** No name occurs twice, within a key or across keys: at most one entry has a given name. */
  lemma NamesDistinct(k1: nat, i1: nat, k2: nat, i2: nat)
    requires k1 < Count && i1 < |Names(k1)| && k2 < Count && i2 < |Names(k2)|
    requires Names(k1)[i1] == Names(k2)[i2]
    ensures k1 == k2 && i1 == i2
  {
  }

  /** The names beginning with `M` or `P`: the only ones a MOV or PUSH variant could equal. */
  lemma NamesOfInitial(c: char)
    requires c == 'M' || c == 'P'
    ensures forall k, i :: 0 <= k < Count && 0 <= i < |Names(k)| && Names(k)[i] != [] && Names(k)[i][0] == c ==>
      if c == 'M' then Names(k)[i] == "MOV" else Names(k)[i] in {"PUSH", "POP"}
  {
  }

  /** No key is `B.`: every key starts with an upper-case name of two or more letters. */
  lemma NoBranchKey(k: nat)
    requires k < Count
    ensures Key(k) != "B."
  {
    NamesWellFormed(k);
    JoinSplit(Key(k), '/');
    JoinStartsWithFirst(Names(k), "/");
    var first := Names(k)[0];
    assert Key(k)[1] == first[1];
    assert IsUpper(first[1]);
  }

  /** A join starts with its first part. */
  lemma JoinStartsWithFirst(parts: seq<string>, sep: string)
    requires parts != []
    ensures parts[0] <= Join(parts, sep)
  {
    if |parts| > 1 {
      var j := Join(parts, sep);
      assert j == parts[0] + (sep + Join(parts[1..], sep));
    }
  }

  /** The table holds twenty entries, MOV first and NOP last; the keys spell their names with `/`. */
  lemma TableShape()
    ensures Count == 20
    ensures Key(0) == "MOV" && Key(Count - 1) == "NOP"
    ensures Key(11) == "JE/JZ" && Key(12) == "JNE/JNZ" && Key(18) == "AND/OR/XOR"
  {
  }

  /** Every key's first name has at least two characters. */
  lemma FirstNamesLong(k: nat)
    requires k < Count
    ensures |Primary(k)| >= 2
  {
    NamesWellFormed(k);
  }

  /** Lower-casing keeps a lower-case prefix. */
  lemma LowerKeepsPrefix(p: string, s: string)
    requires p <= s && forall i :: 0 <= i < |p| ==> !IsUpper(p[i])
    ensures p <= Lower(s)
  {
    var low := Lower(s);
    assert low[..|p|] == p;
  }

  /** MOV's example shows the `mov` mnemonic. */
  lemma MovExample()
    ensures Contains(Lower(Helps(0).example), "mov")
  {
    var ex := Helps(0).example;
    var mov := "mov";
    assert mov <= ex;
    LowerKeepsPrefix(mov, ex);
  }
}
