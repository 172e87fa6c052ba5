/**
  Character classes and string operations shared by the line-oriented parsers:
  Python's `str.strip`, `str.startswith`, `in`, `str.join`, `str.split`,
  `str.splitlines` (on '\n' only), `str.upper`/`str.lower`, `int()` on a
  decimal digit run and `str()` of an integer.

  Character classes are ASCII (whitespace additionally covers the separators
  \x1c-\x1f, NEL and NO-BREAK SPACE that Python also treats as whitespace).
*/
module TextUtil {
  import opened Wrappers

  // ---------------------------------------------------------------------------
  // Character classes
  // ---------------------------------------------------------------------------

  /** Python's `\s` / `str.isspace` restricted to Latin-1. */
  predicate IsSpace(c: char) {
    c == ' ' || c == '\t' || c == '\n' || c == '\r' || c == '\U{B}' || c == '\U{C}'
    || ('\U{1C}' <= c <= '\U{1F}') || c == '\U{85}' || c == '\U{A0}'
  }

  predicate IsDigit(c: char) {
    '0' <= c <= '9'
  }

  predicate IsLower(c: char) {
    'a' <= c <= 'z'
  }

  predicate IsUpper(c: char) {
    'A' <= c <= 'Z'
  }

  predicate IsLetter(c: char) {
    IsLower(c) || IsUpper(c)
  }

  /** Python's `\w`: letters, digits and underscore. */
  predicate IsWordChar(c: char) {
    IsLetter(c) || IsDigit(c) || c == '_'
  }

  /** Every character of `s` is whitespace (Python: `not s.strip()`). */
  predicate IsBlank(s: string) {
    forall i :: 0 <= i < |s| ==> IsSpace(s[i])
  }

  predicate AllDigits(s: string) {
    forall i :: 0 <= i < |s| ==> IsDigit(s[i])
  }

  predicate NoNewline(s: string) {
    forall i :: 0 <= i < |s| ==> s[i] != '\n'
  }

  // ---------------------------------------------------------------------------
  // Stripping
  // ---------------------------------------------------------------------------

  /** `s.lstrip()`: drops the leading whitespace and nothing else. */
  function LStrip(s: string): (r: string)
    ensures |r| <= |s| && r == s[|s| - |r|..]
    ensures r == [] || !IsSpace(r[0])
    ensures IsBlank(s[..|s| - |r|])
  {
    if s != [] && IsSpace(s[0]) then LStrip(s[1..]) else s
  }

  /** `s.rstrip()`: drops the trailing whitespace and nothing else. */
  function RStrip(s: string): (r: string)
    ensures |r| <= |s| && r == s[..|r|]
    ensures r == [] || !IsSpace(r[|r| - 1])
    ensures IsBlank(s[|r|..])
  {
    if s != [] && IsSpace(s[|s| - 1]) then RStrip(s[..|s| - 1]) else s
  }

  /** `s.strip()`. */
  function Strip(s: string): string {
    RStrip(LStrip(s))
  }

  lemma StripEmptyIffBlank(s: string)
    ensures Strip(s) == [] <==> IsBlank(s)
  {
    var l := LStrip(s);
    if Strip(s) == [] {
      assert IsBlank(l) by { assert l[0..] == l; }
      assert s == s[..|s| - |l|] + l;
    } else {
      var r := Strip(s);
      assert !IsSpace(r[0]);
      assert r[0] == s[|s| - |l|];
    }
  }

  lemma {:induction false} LStripOfBlank(s: string)
    requires IsBlank(s)
    ensures LStrip(s) == []
    decreases |s|
  {
    if s != [] {
      LStripOfBlank(s[1..]);
    }
  }

  /** Leading whitespace is exactly what `lstrip` removes. */
  lemma {:induction false} LStripAfterBlank(w: string, s: string)
    requires IsBlank(w) && (s == [] || !IsSpace(s[0]))
    ensures LStrip(w + s) == s
    decreases |w|
  {
    if w == [] {
      assert w + s == s;
    } else {
      assert (w + s)[1..] == w[1..] + s;
      LStripAfterBlank(w[1..], s);
    }
  }

  /** Stripping leading whitespace twice is stripping it once. */
  lemma LStripIdempotent(s: string)
    ensures LStrip(LStrip(s)) == LStrip(s)
  {
    LStripAfterBlank([], LStrip(s));
  }

  /** `(w + s).strip() == s.strip()` for whitespace `w`. */
  lemma StripAfterBlank(w: string, s: string)
    requires IsBlank(w)
    ensures Strip(w + s) == Strip(s)
  {
    LStripBlankPrefix(w, s);
  }

  /** `(w + s).lstrip() == s.lstrip()` for whitespace `w`. */
  lemma {:induction false} LStripBlankPrefix(w: string, s: string)
    requires IsBlank(w)
    ensures LStrip(w + s) == LStrip(s)
    decreases |w|
  {
    if w == [] {
      assert w + s == s;
    } else {
      assert (w + s)[1..] == w[1..] + s;
      LStripBlankPrefix(w[1..], s);
    }
  }

  /** Whatever is left after stripping starts with a non-space character. */
  lemma {:induction false} LStripNonBlank(s: string)
    requires !IsBlank(s)
    ensures LStrip(s) != []
    decreases |s|
  {
    if IsSpace(s[0]) {
      assert !IsBlank(s[1..]) by {
        var i :| 0 <= i < |s| && !IsSpace(s[i]);
        assert s[1..][i - 1] == s[i];
      }
      LStripNonBlank(s[1..]);
    }
  }

  // ---------------------------------------------------------------------------
  // Prefixes and substrings
  // ---------------------------------------------------------------------------

  /** Python's `sub in s`, searched from the left. */
  predicate Contains(s: string, sub: string)
    decreases |s|
  {
    sub <= s || (s != [] && Contains(s[1..], sub))
  }

  /** A longer string that starts with `u` contains everything `u` contains. */
  lemma {:induction false} ContainsExtendRight(u: string, s: string, t: string)
    requires Contains(u, t) && u <= s
    ensures Contains(s, t)
    decreases |u|
  {
    if t <= u {
      assert t <= s;
    } else {
      assert u != [] && Contains(u[1..], t);
      assert u[1..] <= s[1..];
      ContainsExtendRight(u[1..], s[1..], t);
    }
  }

  /** Prepending text never hides a substring. */
  lemma {:induction false} ContainsExtendLeft(a: string, s: string, t: string)
    requires Contains(s, t)
    ensures Contains(a + s, t)
    decreases |a|
  {
    if a != [] {
      ContainsExtendLeft(a[1..], s, t);
      var whole := a + s;
      assert whole[1..] == a[1..] + s;
      assert Contains(whole[1..], t);
    } else {
      assert a + s == s;
    }
  }

  /** Every piece of a concatenation is contained in it. */
  lemma ContainsMiddle(a: string, b: string, c: string)
    ensures Contains(a + b + c, b)
  {
    assert b <= b + c;
    assert Contains(b + c, b);
    ContainsExtendLeft(a, b + c, b);
    assert a + b + c == a + (b + c);
  }

  /** Substring containment is transitive. */
  lemma {:induction false} ContainsTransitive(s: string, u: string, t: string)
    requires Contains(s, u) && Contains(u, t)
    ensures Contains(s, t)
    decreases |s|
  {
    if u <= s {
      ContainsExtendRight(u, s, t);
    } else {
      ContainsTransitive(s[1..], u, t);
    }
  }

  /** Every character of a contained pattern occurs in the containing string. */
  lemma {:induction false} ContainsChars(s: string, t: string, i: nat)
    requires Contains(s, t) && i < |t|
    ensures t[i] in s
    decreases |s|
  {
    if t <= s {
      assert t[i] == s[i];
    } else {
      ContainsChars(s[1..], t, i);
      assert s[1..] <= s[1..];
      var j :| 0 <= j < |s[1..]| && s[1..][j] == t[i];
      assert s[j + 1] == t[i];
    }
  }

  /** A character of the pattern missing from the text rules the pattern out. */
  lemma Absent(s: string, pat: string, i: nat)
    requires i < |pat| && pat[i] !in s
    ensures !Contains(s, pat)
  {
    if Contains(s, pat) {
      ContainsChars(s, pat, i);
    }
  }

  /** Two neighbouring characters of the pattern that never stand side by side in the text rule it out. */
  lemma {:induction false} PairAbsent(s: string, pat: string, i: nat)
    requires i + 1 < |pat|
    requires forall j :: 0 <= j < |s| - 1 ==> !(s[j] == pat[i] && s[j + 1] == pat[i + 1])
    ensures !Contains(s, pat)
    decreases |s|
  {
    if i + 1 < |s| {
      assert !(s[i] == pat[i] && s[i + 1] == pat[i + 1]);
    }
    if s != [] {
      forall j | 0 <= j < |s[1..]| - 1
        ensures !(s[1..][j] == pat[i] && s[1..][j + 1] == pat[i + 1])
      {
        assert s[1..][j] == s[j + 1] && s[1..][j + 1] == s[j + 2];
      }
      PairAbsent(s[1..], pat, i);
    }
  }

  /** A pattern with no whitespace in it cannot overlap surrounding whitespace. */
  predicate SpaceFree(p: string) {
    forall i :: 0 <= i < |p| ==> !IsSpace(p[i])
  }

  /** Leading whitespace hides no occurrence of a space-free pattern. */
  lemma {:induction false} ContainsAfterBlank(w: string, s: string, p: string)
    requires IsBlank(w) && p != [] && SpaceFree(p) && Contains(w + s, p)
    ensures Contains(s, p)
    decreases |w|
  {
    if w == [] {
      assert w + s == s;
    } else {
      assert !(p <= w + s) by { assert (w + s)[0] == w[0]; }
      assert (w + s)[1..] == w[1..] + s;
      ContainsAfterBlank(w[1..], s, p);
    }
  }

  /** Trailing whitespace hides no occurrence of a space-free pattern. */
  lemma {:induction false} ContainsBeforeBlank(s: string, w: string, p: string)
    requires IsBlank(w) && p != [] && SpaceFree(p) && Contains(s + w, p)
    ensures Contains(s, p)
    decreases |s|
  {
    if p <= s + w {
      var i := if |s| < |p| then |s| else 0;
      assert p[i] == (s + w)[i] && !IsSpace(p[i]);
      assert |p| <= |s|;
      assert p <= s;
    } else if s == [] {
      assert s + w == w + [];
      ContainsAfterBlank(w, [], p);
      assert false;
    } else {
      assert (s + w)[1..] == s[1..] + w;
      ContainsBeforeBlank(s[1..], w, p);
    }
  }

  /** Surrounding whitespace neither adds nor hides a space-free pattern. */
  lemma ContainsWithin(lead: string, r: string, trail: string, p: string)
    requires IsBlank(lead) && IsBlank(trail) && p != [] && SpaceFree(p)
    ensures Contains(lead + (r + trail), p) <==> Contains(r, p)
  {
    if Contains(lead + (r + trail), p) {
      ContainsAfterBlank(lead, r + trail, p);
      ContainsBeforeBlank(r, trail, p);
    }
    if Contains(r, p) {
      ContainsExtendRight(r, r + trail, p);
      ContainsExtendLeft(lead, r + trail, p);
    }
  }

  /** `s` is the whitespace `s.lstrip()` drops, then `s.lstrip()`. */
  lemma LStripSplit(s: string) returns (lead: string)
    ensures IsBlank(lead) && s == lead + LStrip(s)
  {
    var l := LStrip(s);
    lead := s[..|s| - |l|];
    assert l == s[|s| - |l|..];
  }

  /** `s` is `s.rstrip()`, then the whitespace it drops. */
  lemma RStripSplit(s: string) returns (trail: string)
    ensures IsBlank(trail) && s == RStrip(s) + trail
  {
    var r := RStrip(s);
    trail := s[|r|..];
    assert r == s[..|r|];
  }

  /** `s` is its stripped text with whitespace on either side. */
  lemma StripParts(s: string) returns (lead: string, trail: string)
    ensures IsBlank(lead) && IsBlank(trail)
    ensures s == lead + (Strip(s) + trail)
  {
    lead := LStripSplit(s);
    trail := RStripSplit(LStrip(s));
  }

  /** `p in s.strip()` exactly when `p in s`, for a space-free pattern. */
  lemma ContainsStrip(s: string, p: string)
    requires p != [] && SpaceFree(p)
    ensures Contains(Strip(s), p) <==> Contains(s, p)
  {
    var lead, trail := StripParts(s);
    ContainsWithin(lead, Strip(s), trail, p);
  }

  /** A string shorter than the pattern cannot contain it. */
  lemma {:induction false} ContainsLength(s: string, t: string)
    requires Contains(s, t)
    ensures |t| <= |s|
    decreases |s|
  {
    if !(t <= s) {
      ContainsLength(s[1..], t);
    }
  }

  // ---------------------------------------------------------------------------
  // Joining and splitting
  // ---------------------------------------------------------------------------

  /** `sep.join(parts)`. */
  function Join(parts: seq<string>, sep: string): string
    decreases |parts|
  {
    if |parts| == 0 then ""
    else if |parts| == 1 then parts[0]
    else parts[0] + sep + Join(parts[1..], sep)
  }

  /** Every part of a join is contained in the joined text. */
  lemma {:induction false} JoinContainsPart(parts: seq<string>, sep: string, k: nat)
    requires k < |parts|
    ensures Contains(Join(parts, sep), parts[k])
    decreases |parts|
  {
    if |parts| == 1 {
      ContainsMiddle("", parts[0], "");
      assert "" + parts[0] + "" == parts[0];
    } else if k == 0 {
      ContainsMiddle("", parts[0], sep + Join(parts[1..], sep));
      assert "" + parts[0] + (sep + Join(parts[1..], sep)) == Join(parts, sep);
    } else {
      JoinContainsPart(parts[1..], sep, k - 1);
      ContainsExtendLeft(parts[0] + sep, Join(parts[1..], sep), parts[k]);
    }
  }

  /** Position of the first '\n' in `s`, or `|s|` when there is none. */
  function NewlineIndex(s: string): (i: nat)
    ensures i <= |s|
    ensures i < |s| ==> s[i] == '\n'
    ensures NoNewline(s[..i])
  {
    if s == [] then 0
    else if s[0] == '\n' then 0
    else 1 + NewlineIndex(s[1..])
  }

  /** `s.splitlines()` for text whose only line break is '\n'. */
  function SplitLines(s: string): seq<string>
    decreases |s|
  {
    if s == [] then []
    else
      var i := NewlineIndex(s);
      if i == |s| then [s] else [s[..i]] + SplitLines(s[i + 1..])
  }

  /** Joining non-empty lines with '\n' and splitting the text again gives the lines back. */
  lemma {:induction false} SplitJoinLines(lines: seq<string>)
    requires forall k :: 0 <= k < |lines| ==> lines[k] != [] && NoNewline(lines[k])
    ensures SplitLines(Join(lines, "\n")) == lines
    decreases |lines|
  {
    if |lines| == 1 {
      var a := lines[0];
      NoNewlineIndex(a);
    } else if |lines| > 1 {
      var a := lines[0];
      var rest := Join(lines[1..], "\n");
      var s := Join(lines, "\n");
      assert s == a + "\n" + rest;
      NoNewlineIndex2(a, rest);
      assert s[..|a|] == a;
      assert s[|a| + 1..] == rest;
      SplitJoinLines(lines[1..]);
    }
  }

  lemma {:induction false} NoNewlineIndex(a: string)
    requires NoNewline(a)
    ensures NewlineIndex(a) == |a|
    decreases |a|
  {
    if a != [] {
      NoNewlineIndex(a[1..]);
    }
  }

  lemma {:induction false} NoNewlineIndex2(a: string, rest: string)
    requires NoNewline(a)
    ensures NewlineIndex(a + "\n" + rest) == |a|
    decreases |a|
  {
    if a != [] {
      assert (a + "\n" + rest)[1..] == a[1..] + "\n" + rest;
      NoNewlineIndex2(a[1..], rest);
    }
  }

  /** Length of the longest prefix of `s` made of non-whitespace characters. */
  function NonSpaceSpan(s: string): (n: nat)
    ensures n <= |s|
    ensures forall i :: 0 <= i < n ==> !IsSpace(s[i])
    ensures n < |s| ==> IsSpace(s[n])
  {
    if s == [] || IsSpace(s[0]) then 0 else 1 + NonSpaceSpan(s[1..])
  }

  /** `s.split()`: the maximal runs of non-whitespace characters, in order. */
  function Words(s: string): (ws: seq<string>)
    ensures forall k :: 0 <= k < |ws| ==> ws[k] != []
    decreases |s|
  {
    var t := LStrip(s);
    if t == [] then []
    else
      var n := NonSpaceSpan(t);
      [t[..n]] + Words(t[n..])
  }

  // ---------------------------------------------------------------------------
  // Case mapping (ASCII)
  // ---------------------------------------------------------------------------

  function UpperChar(c: char): char {
    if IsLower(c) then (c as int - 32) as char else c
  }

  function LowerChar(c: char): char {
    if IsUpper(c) then (c as int + 32) as char else c
  }

  /** `s.upper()`. */
  function Upper(s: string): (r: string)
    ensures |r| == |s|
    ensures forall i :: 0 <= i < |s| ==> r[i] == UpperChar(s[i])
  {
    if s == [] then [] else [UpperChar(s[0])] + Upper(s[1..])
  }

  /** `s.lower()`. */
  function Lower(s: string): (r: string)
    ensures |r| == |s|
    ensures forall i :: 0 <= i < |s| ==> r[i] == LowerChar(s[i])
  {
    if s == [] then [] else [LowerChar(s[0])] + Lower(s[1..])
  }

  // ---------------------------------------------------------------------------
  // Numerals
  // ---------------------------------------------------------------------------

  /** Length of the longest prefix of `s` made of decimal digits. */
  function DigitSpan(s: string): (n: nat)
    ensures n <= |s|
    ensures AllDigits(s[..n])
    ensures n < |s| ==> !IsDigit(s[n])
  {
    if s == [] || !IsDigit(s[0]) then 0 else 1 + DigitSpan(s[1..])
  }

  /** The digit run of `d + t` is `d` when `t` does not continue it. */
  lemma {:induction false} DigitSpanOf(d: string, t: string)
    requires AllDigits(d) && (t == [] || !IsDigit(t[0]))
    ensures DigitSpan(d + t) == |d|
    decreases |d|
  {
    if d == [] {
      assert d + t == t;
    } else {
      assert (d + t)[1..] == d[1..] + t;
      DigitSpanOf(d[1..], t);
    }
  }

  /** The maximal non-empty digit run at the start of `s`, and what follows it. */
  function Digits(s: string): (r: Option<(string, string)>)
    ensures r.Some? ==> r.value.0 != [] && AllDigits(r.value.0) && s == r.value.0 + r.value.1
    ensures r.Some? ==> r.value.1 == [] || !IsDigit(r.value.1[0])
    ensures r.None? ==> s == [] || !IsDigit(s[0])
  {
    var n := DigitSpan(s);
    if n == 0 then None else Some((s[..n], s[n..]))
  }

  lemma DigitsOf(d: string, t: string)
    requires d != [] && AllDigits(d) && (t == [] || !IsDigit(t[0]))
    ensures Digits(d + t) == Some((d, t))
  {
    DigitSpanOf(d, t);
    assert (d + t)[..|d|] == d && (d + t)[|d|..] == t;
  }

  /** Python's `int(ds)` for a string of decimal digits. */
  function DecimalValue(ds: string): nat
    requires AllDigits(ds)
    decreases |ds|
  {
    if ds == [] then 0
    else DecimalValue(ds[..|ds| - 1]) * 10 + (ds[|ds| - 1] as int - '0' as int)
  }

  function DigitChar(d: nat): (c: char)
    requires d < 10
    ensures IsDigit(c) && c as int - '0' as int == d
  {
    ('0' as int + d) as char
  }

  /** Python's `str(n)` for a non-negative integer. */
  function NatToString(n: nat): (s: string)
    ensures s != [] && AllDigits(s)
  {
    if n < 10 then [DigitChar(n)] else NatToString(n / 10) + [DigitChar(n % 10)]
  }

  /** Python's `str(n)` for any integer. */
  function IntToString(n: int): string {
    if n < 0 then "-" + NatToString(-n) else NatToString(n)
  }

  /** `int(str(n)) == n`: printing and reading back a numeral is the identity. */
  lemma {:induction false} NatToStringRoundTrip(n: nat)
    ensures DecimalValue(NatToString(n)) == n
  {
    if n >= 10 {
      NatToStringRoundTrip(n / 10);
      var s := NatToString(n);
      assert s[..|s| - 1] == NatToString(n / 10);
    }
  }

  /** The printed form of an integer never holds a line break. */
  lemma IntToStringNoNewline(n: int)
    ensures NoNewline(IntToString(n))
  {
    var s := IntToString(n);
    forall i | 0 <= i < |s| ensures s[i] != '\n' {
      if n < 0 {
        assert i == 0 || s[i] == NatToString(-n)[i - 1];
      }
    }
  }
}
