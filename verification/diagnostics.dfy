/**
  The GCC/Clang diagnostic extractor: every stderr line of the shape
  `<anything>:<line>:<col>: error|warning: <message>` becomes one record.

  The pattern is applied line by line (`^` and `$` in multi-line mode, `.`
  never crossing a '\n'). Its leading `.*` is greedy, so of all the colons on
  a line the match uses the rightmost one from which the rest of the pattern
  succeeds; the path part may therefore hold directories and colons of its own.
*/
module Diagnostics {
  import opened Wrappers
  import opened TextUtil

  /** One compiler diagnostic. */
  datatype Diagnostic = Diagnostic(line: nat, column: nat, severity: string, message: string)

  predicate IsSeverity(s: string) {
    s == "error" || s == "warning"
  }

  // ---------------------------------------------------------------------------
  // The pattern `^.*:(\d+):(\d+):\s+(error|warning):\s+(.*)$` on one line,
  // one stage of the pattern per function
  // ---------------------------------------------------------------------------

  /** What follows the colon that ends `.*`: first `(\d+)`. */
  function AfterPath(s: string): (r: Option<Diagnostic>)
    ensures r.Some? ==> IsSeverity(r.value.severity)
    ensures s == [] || !IsDigit(s[0]) ==> r.None?
  {
    match Digits(s)
    case None => None
    case Some((ln, r1)) => LineColon(DecimalValue(ln), r1)
  }

  /** `:(\d+)` after the line number. */
  function LineColon(ln: nat, s: string): (r: Option<Diagnostic>)
    ensures r.Some? ==> IsSeverity(r.value.severity) && r.value.line == ln
  {
    if s == [] || s[0] != ':' then None
    else
      match Digits(s[1..])
      case None => None
      case Some((col, r2)) => ColumnColon(ln, DecimalValue(col), r2)
  }

  /** `:\s+` after the column number. */
  function ColumnColon(ln: nat, col: nat, s: string): (r: Option<Diagnostic>)
    ensures r.Some? ==> IsSeverity(r.value.severity) && r.value.line == ln && r.value.column == col
  {
    if |s| < 2 || s[0] != ':' || !IsSpace(s[1]) then None
    else SeverityWord(ln, col, LStrip(s[1..]))
  }

  /** `(error|warning)`, the alternatives tried in that order. */
  function SeverityWord(ln: nat, col: nat, t: string): (r: Option<Diagnostic>)
    ensures r.Some? ==> IsSeverity(r.value.severity) && r.value.line == ln && r.value.column == col
  {
    if "error" <= t then AfterSeverity(ln, col, "error", t[5..])
    else if "warning" <= t then AfterSeverity(ln, col, "warning", t[7..])
    else None
  }

  /**
    `:\s+(.*)$`. Group 4 is `u[1..]` without its leading whitespace (the `\s+`
    before it is greedy); the message is group 4 stripped, which is `u[1..]`
    stripped (StripOfGroup).
  */
  function AfterSeverity(ln: nat, col: nat, sev: string, u: string): (r: Option<Diagnostic>)
    ensures r.Some? ==> r.value == Diagnostic(ln, col, sev, r.value.message)
  {
    if |u| < 2 || u[0] != ':' || !IsSpace(u[1]) then None
    else Some(Diagnostic(ln, col, sev, Strip(u[1..])))
  }

  /** Stripping group 4 is stripping everything after the colon. */
  lemma StripOfGroup(s: string)
    ensures Strip(LStrip(s)) == Strip(s)
  {
    LStripIdempotent(s);
  }

  /**
    The match of the pattern on one line. The greedy `.*` backtracks from the
    right, so the colon used is the rightmost one from which the rest succeeds:
    a match found further right wins over this position's.
  */
  function MatchLine(line: string): (r: Option<Diagnostic>)
    ensures r.Some? ==> IsSeverity(r.value.severity)
    decreases |line|
  {
    if line == [] then None
    else
      var right := MatchLine(line[1..]);
      if right.Some? then right
      else if line[0] == ':' then AfterPath(line[1..])
      else None
  }

  /** A colon position from which the rest of the pattern succeeds. */
  predicate Anchor(line: string, p: int) {
    0 <= p < |line| && line[p] == ':' && AfterPath(line[p + 1..]).Some?
  }

  lemma AnchorShift(line: string, q: nat)
    requires line != [] && q < |line| - 1
    ensures Anchor(line[1..], q) == Anchor(line, q + 1)
  {
    assert line[1..][q] == line[q + 1];
    assert line[1..][q + 1..] == line[q + 2..];
  }

  /** The record comes from some colon of the line, read by the rest of the pattern. */
  lemma {:induction false} MatchLineSound(line: string)
    ensures MatchLine(line).Some? ==> exists p :: Anchor(line, p) && MatchLine(line) == AfterPath(line[p + 1..])
    decreases |line|
  {
    if line != [] {
      var t := line[1..];
      MatchLineSound(t);
      if MatchLine(t).Some? {
        var p :| Anchor(t, p) && MatchLine(t) == AfterPath(t[p + 1..]);
        AnchorShift(line, p);
        assert t[p + 1..] == line[p + 2..];
        assert Anchor(line, p + 1) && MatchLine(line) == AfterPath(line[p + 2..]);
      } else if MatchLine(line).Some? {
        assert Anchor(line, 0) && MatchLine(line) == AfterPath(line[0 + 1..]);
      }
    }
  }

  /** A line that does not match has no anchor: any anchor makes the line match. */
  lemma {:induction false} NoMatchNoAnchor(line: string, p: nat)
    requires MatchLine(line).None?
    ensures !Anchor(line, p)
    decreases p
  {
    if 0 < p < |line| {
      AnchorShift(line, p - 1);
      NoMatchNoAnchor(line[1..], p - 1);
    }
  }

  // ---------------------------------------------------------------------------
  // The whole of stderr
  // ---------------------------------------------------------------------------

  /** The diagnostics of the matching lines, in line order. */
  function Diagnose(lines: seq<string>): seq<Diagnostic>
    decreases |lines|
  {
    if lines == [] then []
    else
      var last := lines[|lines| - 1];
      Diagnose(lines[..|lines| - 1]) + (match MatchLine(last) case Some(d) => [d] case None => [])
  }

  lemma DiagnoseStep(lines: seq<string>, i: nat)
    requires i < |lines|
    ensures Diagnose(lines[..i + 1]) ==
      Diagnose(lines[..i]) + (match MatchLine(lines[i]) case Some(d) => [d] case None => [])
  {
    assert lines[..i + 1][..i] == lines[..i];
  }

  /** `parse_diagnostics`: one record per matching line, appended in order. */
  method ParseDiagnostics(stderr: string) returns (ds: seq<Diagnostic>)
    ensures ds == Diagnose(SplitLines(stderr))
  {
    var lines := SplitLines(stderr);
    ds := [];
    var i := 0;
    while i < |lines|
      invariant 0 <= i <= |lines|
      invariant ds == Diagnose(lines[..i])
    {
      DiagnoseStep(lines, i);
      var m := MatchLine(lines[i]);
      if m.Some? {
        ds := ds + [m.value];
      }
      i := i + 1;
    }
    assert lines[..i] == lines;
  }

  // ---------------------------------------------------------------------------
  // Properties of the extractor
  // ---------------------------------------------------------------------------

  /** Empty stderr yields no diagnostics. */
  lemma EmptyStderr()
    ensures Diagnose(SplitLines("")) == []
  {
  }

  /** Records come out in stderr order: the records of `a + b` are those of `a`, then those of `b`. */
  lemma {:induction false} DiagnoseAppend(a: seq<string>, b: seq<string>)
    ensures Diagnose(a + b) == Diagnose(a) + Diagnose(b)
    decreases |b|
  {
    if b == [] {
      assert a + b == a;
    } else {
      var b' := b[..|b| - 1];
      assert (a + b)[..|a + b| - 1] == a + b';
      DiagnoseAppend(a, b');
    }
  }

  /** There are never more diagnostics than lines. */
  lemma {:induction false} DiagnoseLength(lines: seq<string>)
    ensures |Diagnose(lines)| <= |lines|
    decreases |lines|
  {
    if lines != [] {
      DiagnoseLength(lines[..|lines| - 1]);
    }
  }

  /** Every record is the match of some input line, and its severity is `error` or `warning`. */
  lemma {:induction false} DiagnoseSound(lines: seq<string>)
    ensures forall k :: 0 <= k < |Diagnose(lines)| ==>
      IsSeverity(Diagnose(lines)[k].severity)
      && exists j :: 0 <= j < |lines| && MatchLine(lines[j]) == Some(Diagnose(lines)[k])
    decreases |lines|
  {
    if lines != [] {
      var init := lines[..|lines| - 1];
      DiagnoseSound(init);
      var ds := Diagnose(lines);
      forall k | 0 <= k < |ds|
        ensures IsSeverity(ds[k].severity)
        ensures exists j :: 0 <= j < |lines| && MatchLine(lines[j]) == Some(ds[k])
      {
        if k < |Diagnose(init)| {
          var j :| 0 <= j < |init| && MatchLine(init[j]) == Some(Diagnose(init)[k]);
          assert lines[j] == init[j];
        } else {
          assert MatchLine(lines[|lines| - 1]) == Some(ds[k]);
        }
      }
    }
  }

  /** Every matching line contributes its record. */
  lemma {:induction false} DiagnoseComplete(lines: seq<string>, j: nat)
    requires j < |lines| && MatchLine(lines[j]).Some?
    ensures MatchLine(lines[j]).value in Diagnose(lines)
    decreases |lines|
  {
    var init := lines[..|lines| - 1];
    var last := lines[|lines| - 1];
    var d := MatchLine(lines[j]).value;
    if j < |init| {
      assert lines[j] == init[j];
      DiagnoseComplete(init, j);
      assert d in Diagnose(init);
    } else {
      assert j == |lines| - 1;
      DiagnoseLast(lines, d);
    }
  }

  lemma DiagnoseLast(lines: seq<string>, d: Diagnostic)
    requires lines != [] && MatchLine(lines[|lines| - 1]) == Some(d)
    ensures Diagnose(lines) == Diagnose(lines[..|lines| - 1]) + [d]
  {
  }

  // ---------------------------------------------------------------------------
  // Lines the pattern cannot match
  // ---------------------------------------------------------------------------

  /** Text without colons in front of a line changes nothing. */
  lemma {:induction false} NoColonPrefix(a: string, b: string)
    requires ':' !in a
    ensures MatchLine(a + b) == MatchLine(b)
    decreases |a|
  {
    if a == [] {
      assert a + b == b;
    } else {
      assert (a + b)[1..] == a[1..] + b;
      NoColonPrefix(a[1..], b);
    }
  }

  /** A match found further right is kept whatever precedes it. */
  lemma {:induction false} SuffixMatch(a: string, b: string)
    requires MatchLine(b).Some?
    ensures MatchLine(a + b) == MatchLine(b)
    decreases |a|
  {
    if a == [] {
      assert a + b == b;
    } else {
      assert (a + b)[1..] == a[1..] + b;
      SuffixMatch(a[1..], b);
    }
  }

  /** A line without a colon never matches. */
  lemma NoColonNoDiagnostic(line: string)
    requires ':' !in line
    ensures MatchLine(line) == None
  {
    NoColonPrefix(line, []);
    assert line + [] == line;
  }

  /** Clang's summary line is not a diagnostic. */
  lemma SummaryLineIgnored()
    ensures MatchLine("1 error generated.") == None
  {
    SummaryText();
    NoColonNoDiagnostic("1 error generated.");
  }

  lemma SummaryText()
    ensures ':' !in "1 error generated."
  {
  }

  /** A colon followed by unmatched text that does not start with a digit adds no match. */
  lemma ColonThenUnmatched(b: string)
    requires MatchLine(b) == None && (b == [] || !IsDigit(b[0]))
    ensures MatchLine(":" + b) == None
  {
    assert (":" + b)[1..] == b;
  }

  /** A line whose only colon is followed by something other than a digit does not match. */
  lemma ColonWithoutPosition(a: string, b: string)
    requires ':' !in a && ':' !in b && (b == [] || !IsDigit(b[0]))
    ensures MatchLine(a + (":" + b)) == None
  {
    NoColonNoDiagnostic(b);
    ColonThenUnmatched(b);
    NoColonPrefix(a, ":" + b);
  }

  lemma RustcHeaderText()
    ensures "error[E0308]" + (":" + " mismatched types") == "error[E0308]: mismatched types"
    ensures ':' !in "error[E0308]" && ':' !in " mismatched types"
  {
  }

  /** rustc's own `error[E0308]:` header is not a diagnostic. */
  lemma RustcHeaderIgnored()
    ensures MatchLine("error[E0308]: mismatched types") == None
  {
    RustcHeaderText();
    ColonWithoutPosition("error[E0308]", " mismatched types");
  }

  /** `line:col` with nothing after it is not a diagnostic: the severity is missing. */
  lemma PositionWithoutSeverity(a: string, l: string, c: string)
    requires ':' !in a && l != [] && AllDigits(l) && c != [] && AllDigits(c)
    ensures MatchLine(a + (":" + (l + (":" + c)))) == None
  {
    DigitsHaveNoColon(c);
    NoColonNoDiagnostic(c);
    DigitsOf(c, []);
    assert c + [] == c;
    assert (":" + c)[1..] == c;
    assert MatchLine(":" + c) == None;
    DigitsHaveNoColon(l);
    NoColonPrefix(l, ":" + c);
    DigitsOf(l, ":" + c);
    var x := ":" + (l + (":" + c));
    assert x[1..] == l + (":" + c);
    assert MatchLine(x) == None;
    NoColonPrefix(a, x);
  }

  /** A line number followed by a bare colon is not a position. */
  lemma LineNumberOnly(a: string, l: string)
    requires ':' !in a && l != [] && AllDigits(l)
    ensures MatchLine(a + (":" + (l + ":"))) == None
  {
    assert MatchLine(":") == None by {
      assert ":"[1..] == [];
    }
    DigitsHaveNoColon(l);
    NoColonPrefix(l, ":");
    DigitsOf(l, ":");
    var x := ":" + (l + ":");
    assert x[1..] == l + ":";
    assert MatchLine(x) == None;
    NoColonPrefix(a, x);
  }

  lemma RustcPointerText()
    ensures " --> src/main.rs" + (":" + ("5" + (":" + "10"))) == " --> src/main.rs:5:10"
    ensures ':' !in " --> src/main.rs" && AllDigits("5") && AllDigits("10")
  {
  }

  /** rustc's `--> file:line:col` pointer has no severity, so it is not a diagnostic either. */
  lemma RustcPointerIgnored()
    ensures MatchLine(" --> src/main.rs:5:10") == None
  {
    RustcPointerText();
    PositionWithoutSeverity(" --> src/main.rs", "5", "10");
  }

  lemma IncludeLineText()
    ensures "In file included from main.cpp" + (":" + ("1" + ":")) == "In file included from main.cpp:1:"
    ensures ':' !in "In file included from main.cpp" && AllDigits("1")
  {
  }

  /** A line number followed by nothing is not a position: `main.cpp:1:` does not match. */
  lemma IncludeLineIgnored()
    ensures MatchLine("In file included from main.cpp:1:") == None
  {
    IncludeLineText();
    LineNumberOnly("In file included from main.cpp", "1");
  }

  // ---------------------------------------------------------------------------
  // Lines the pattern does match
  // ---------------------------------------------------------------------------

  /** The line a compiler prints for a diagnostic at `path:ln:col`. */
  function Rendered(path: string, ln: nat, col: nat, sev: string, msg: string): string {
    path + (":" + (NatToString(ln) + (":" + (NatToString(col) + (": " + (sev + (": " + msg)))))))
  }

  lemma DigitsHaveNoColon(d: string)
    requires AllDigits(d)
    ensures ':' !in d
  {
    forall i | 0 <= i < |d| ensures d[i] != ':' {
      assert IsDigit(d[i]);
    }
  }

  /** `: msg` holds no anchor when `msg` has no colon. */
  lemma MessageTailUnmatched(msg: string)
    requires ':' !in msg
    ensures MatchLine(": " + msg) == None
  {
    var m := " " + msg;
    NoColonNoDiagnostic(m);
    ColonThenUnmatched(m);
    assert ":" + m == ": " + msg;
  }

  lemma SeverityHasNoColon(sev: string)
    requires IsSeverity(sev)
    ensures ':' !in " " + sev
  {
    if sev == "error" {
      assert " " + sev == " error";
    } else {
      assert " " + sev == " warning";
    }
  }

  /** `: sev: msg` holds no anchor when `msg` has no colon. */
  lemma SeverityTailUnmatched(sev: string, msg: string)
    requires IsSeverity(sev) && ':' !in msg
    ensures MatchLine(": " + (sev + (": " + msg))) == None
  {
    var tail := ": " + msg;
    var w := " " + sev;
    var x := w + tail;
    assert MatchLine(x) == None by {
      MessageTailUnmatched(msg);
      SeverityHasNoColon(sev);
      NoColonPrefix(w, tail);
    }
    assert MatchLine(":" + x) == None by {
      assert x[0] == ' ';
      ColonThenUnmatched(x);
    }
    assert ":" + x == ": " + (sev + tail);
  }

  /** After the column number's colon comes a space, not a digit, so `:col: sev: msg` holds no anchor. */
  lemma ColumnTailUnmatched(col: nat, sev: string, msg: string)
    requires IsSeverity(sev) && ':' !in msg
    ensures MatchLine(":" + (NatToString(col) + (": " + (sev + (": " + msg))))) == None
  {
    var c := NatToString(col);
    var x := ": " + (sev + (": " + msg));
    SeverityTailUnmatched(sev, msg);
    DigitsHaveNoColon(c);
    NoColonPrefix(c, x);
    DigitsOf(c, x);
    assert (":" + (c + x))[1..] == c + x;
    assert x[1..] == " " + (sev + (": " + msg));
  }

  /** `: msg` after the severity: the message is `msg` stripped. */
  lemma AfterSeverityOf(ln: nat, col: nat, sev: string, msg: string)
    ensures AfterSeverity(ln, col, sev, ": " + msg) == Some(Diagnostic(ln, col, sev, Strip(msg)))
  {
    var u := ": " + msg;
    assert |u| >= 2 && u[0] == ':' && u[1] == ' ';
    assert u[1..] == " " + msg;
    StripAfterBlank(" ", msg);
  }

  /** The severity word is read, and what follows it is handed on. */
  lemma SeverityWordOf(ln: nat, col: nat, sev: string, msg: string)
    requires IsSeverity(sev)
    ensures SeverityWord(ln, col, sev + (": " + msg)) == AfterSeverity(ln, col, sev, ": " + msg)
  {
    var x2 := sev + (": " + msg);
    if sev == "error" {
      assert "error" <= x2;
      assert x2[5..] == ": " + msg;
    } else {
      assert x2[0] == 'w';
      assert !("error" <= x2);
      assert "warning" <= x2;
      assert x2[7..] == ": " + msg;
    }
  }

  /** The severity, the colon and the message, read after the position. */
  lemma ColumnColonOf(ln: nat, col: nat, sev: string, msg: string)
    requires IsSeverity(sev)
    ensures ColumnColon(ln, col, ": " + (sev + (": " + msg))) == Some(Diagnostic(ln, col, sev, Strip(msg)))
  {
    var x2 := sev + (": " + msg);
    var s := ": " + x2;
    assert s[0] == ':' && s[1] == ' ' && IsSpace(' ');
    assert s[1..] == " " + x2;
    assert !IsSpace(x2[0]) by {
      assert x2[0] == sev[0];
    }
    LStripAfterBlank(" ", x2);
    SeverityWordOf(ln, col, sev, msg);
    AfterSeverityOf(ln, col, sev, msg);
  }

  /** After the path's colon the pattern reads the position, the severity and the message. */
  lemma AfterPathOf(ln: nat, col: nat, sev: string, msg: string)
    requires IsSeverity(sev)
    ensures AfterPath(NatToString(ln) + (":" + (NatToString(col) + (": " + (sev + (": " + msg))))))
      == Some(Diagnostic(ln, col, sev, Strip(msg)))
  {
    var l := NatToString(ln);
    var c := NatToString(col);
    var x1 := ": " + (sev + (": " + msg));
    DigitsOf(l, ":" + (c + x1));
    DigitsOf(c, x1);
    assert (":" + (c + x1))[1..] == c + x1;
    NatToStringRoundTrip(ln);
    NatToStringRoundTrip(col);
    ColumnColonOf(ln, col, sev, msg);
  }

  /**
    A line rendered as `path:ln:col: sev: msg` yields exactly that diagnostic, with
    the message stripped, whatever the path holds (directories, colons, numbers),
    as long as the message itself has no colon.
  */
  lemma RenderedRoundTrip(path: string, ln: nat, col: nat, sev: string, msg: string)
    requires IsSeverity(sev) && ':' !in msg
    ensures MatchLine(Rendered(path, ln, col, sev, msg)) == Some(Diagnostic(ln, col, sev, Strip(msg)))
  {
    var l := NatToString(ln);
    var x0 := ":" + (NatToString(col) + (": " + (sev + (": " + msg))));
    ColumnTailUnmatched(col, sev, msg);
    DigitsHaveNoColon(l);
    NoColonPrefix(l, x0);
    AfterPathOf(ln, col, sev, msg);
    assert (":" + (l + x0))[1..] == l + x0;
    assert MatchLine(":" + (l + x0)) == Some(Diagnostic(ln, col, sev, Strip(msg)));
    SuffixMatch(path, ":" + (l + x0));
  }

  /** Text with no whitespace at either end is its own `strip()`. */
  lemma Unpadded(s: string)
    requires s == [] || (!IsSpace(s[0]) && !IsSpace(s[|s| - 1]))
    ensures Strip(s) == s
  {
    LStripAfterBlank([], s);
    assert [] + s == s;
  }

  lemma Numbers()
    ensures NatToString(42) == "42" && NatToString(10) == "10"
  {
  }

  lemma StdioText()
    ensures Rendered("/usr/include/stdio.h", 42, 10, "warning", "something")
      == "/usr/include/stdio.h:42:10: warning: something"
  {
    Numbers();
  }

  lemma SomethingText()
    ensures ':' !in "something" && Strip("something") == "something"
  {
    Unpadded("something");
  }

  /** A rendered line whose message needs no stripping reads back as its record. */
  lemma RenderedLine(line: string, path: string, ln: nat, col: nat, sev: string, msg: string)
    requires IsSeverity(sev) && ':' !in msg && Strip(msg) == msg
    requires line == Rendered(path, ln, col, sev, msg)
    ensures MatchLine(line) == Some(Diagnostic(ln, col, sev, msg))
  {
    RenderedRoundTrip(path, ln, col, sev, msg);
  }

  lemma StdioWarning()
    ensures MatchLine("/usr/include/stdio.h:42:10: warning: something")
      == Some(Diagnostic(42, 10, "warning", "something"))
  {
    StdioText();
    SomethingText();
    RenderedLine("/usr/include/stdio.h:42:10: warning: something",
      "/usr/include/stdio.h", 42, 10, "warning", "something");
  }

  lemma DiagnoseSkip(lines: seq<string>)
    requires lines != [] && MatchLine(lines[|lines| - 1]) == None
    ensures Diagnose(lines) == Diagnose(lines[..|lines| - 1])
  {
  }

  /** Of three lines, only the middle one matching yields just its record. */
  lemma DiagnoseMiddle(a: string, b: string, c: string, d: Diagnostic)
    requires MatchLine(a) == None && MatchLine(b) == Some(d) && MatchLine(c) == None
    ensures Diagnose([a, b, c]) == [d]
  {
    var l3 := [a, b, c];
    var l2 := [a, b];
    var l1 := [a];
    assert l3[..2] == l2 && l3[2] == c;
    DiagnoseSkip(l3);
    assert l2[..1] == l1 && l2[1] == b;
    DiagnoseLast(l2, d);
    assert l1[..0] == [] && l1[0] == a;
    DiagnoseSkip(l1);
  }

  /** A header line followed by a diagnostic and a summary yields just the diagnostic. */
  lemma IncludeTraceExample()
    ensures Diagnose(["In file included from main.cpp:1:",
                      "/usr/include/stdio.h:42:10: warning: something",
                      "1 error generated."])
      == [Diagnostic(42, 10, "warning", "something")]
  {
    IncludeLineIgnored();
    StdioWarning();
    SummaryLineIgnored();
    DiagnoseMiddle("In file included from main.cpp:1:",
                   "/usr/include/stdio.h:42:10: warning: something",
                   "1 error generated.",
                   Diagnostic(42, 10, "warning", "something"));
  }
}
