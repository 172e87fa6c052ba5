/**
  Language routing: the language of a source file is decided by the suffix
  of its final path component, as `pathlib` computes it for POSIX paths,
  looked up case-sensitively in a fixed extension table.
*/
module Lang {

  datatype Language = Cpp | Rust | Unknown

  /** The extension table. */
  const ExtMap: map<string, Language> := map[
    ".cpp" := Cpp, ".cc" := Cpp, ".cxx" := Cpp, ".c" := Cpp, ".C" := Cpp,
    ".rs" := Rust
  ]

  // ---------------------------------------------------------------------------
  // `PurePosixPath(p).name` and `.suffix`
  // ---------------------------------------------------------------------------

  /** The text after the last `/` of `s` (all of `s` when it has none). */
  function AfterLastSlash(s: string): (r: string)
    ensures |r| <= |s| && r == s[|s| - |r|..]
    ensures '/' !in r
    ensures |r| < |s| ==> s[|s| - |r| - 1] == '/'
  {
    if s == [] || s[|s| - 1] == '/' then []
    else AfterLastSlash(s[..|s| - 1]) + [s[|s| - 1]]
  }

  /** The final component, skipping empty and `.` components; `""` when there is none. */
  function Name(path: string): (name: string)
    ensures '/' !in name && name != "."
    decreases |path|
  {
    var last := AfterLastSlash(path);
    if last != [] && last != "." then last
    else if |last| == |path| then ""
    else Name(path[..|path| - |last| - 1])
  }

  /** Index of the last `.` of `s`, or -1 when there is none. */
  function LastDot(s: string): (i: int)
    ensures -1 <= i < |s|
    ensures i >= 0 ==> s[i] == '.'
    ensures forall j :: i < j < |s| ==> s[j] != '.'
  {
    if s == [] then -1
    else if s[|s| - 1] == '.' then |s| - 1
    else LastDot(s[..|s| - 1])
  }

  /** The suffix: from the last dot on, provided that dot neither starts nor ends the name. */
  function Suffix(name: string): string {
    var i := LastDot(name);
    if 0 < i < |name| - 1 then name[i..] else ""
  }

  function PathSuffix(path: string): string {
    Suffix(Name(path))
  }

  // ---------------------------------------------------------------------------
  // `detect_language`, `is_supported`, `source_label`
  // ---------------------------------------------------------------------------

  function DetectLanguage(path: string): Language {
    var ext := PathSuffix(path);
    if ext in ExtMap then ExtMap[ext] else Unknown
  }

  predicate IsSupported(path: string) {
    PathSuffix(path) in ExtMap
  }

  function SourceLabel(lang: Language): string {
    if lang == Rust then "RUST SOURCE" else "C++ SOURCE"
  }

  // ---------------------------------------------------------------------------
  // Properties
  // ---------------------------------------------------------------------------

  /** The table, entry by entry. */
  lemma ExtMapEntries(ext: string)
    ensures ext in ExtMap <==> ext in {".cpp", ".cc", ".cxx", ".c", ".C", ".rs"}
    ensures ext in ExtMap ==> ExtMap[ext] == if ext == ".rs" then Rust else Cpp
  {
  }

  /** C++ is detected exactly for the five C++ suffixes, case included; Rust exactly for `.rs`. */
  lemma LanguageIff(path: string)
    ensures DetectLanguage(path) == Cpp <==> PathSuffix(path) in {".cpp", ".cc", ".cxx", ".c", ".C"}
    ensures DetectLanguage(path) == Rust <==> PathSuffix(path) == ".rs"
  {
    ExtMapEntries(PathSuffix(path));
  }

  /** A path is supported exactly when its language is known. */
  lemma SupportedIff(path: string)
    ensures IsSupported(path) <==> DetectLanguage(path) != Unknown
  {
  }

  /** The label names Rust exactly for Rust sources; everything else, unknown included, is labelled C++. */
  lemma LabelOfPath(path: string)
    ensures SourceLabel(DetectLanguage(path)) == "RUST SOURCE" <==> PathSuffix(path) == ".rs"
    ensures SourceLabel(DetectLanguage(path)) != "RUST SOURCE" ==> SourceLabel(DetectLanguage(path)) == "C++ SOURCE"
  {
  }

  /**
    The suffix is the last extension: a non-empty stem, then a dot and a
    non-empty extension without dots.
  */
  lemma {:induction false} SuffixOf(stem: string, e: string)
    requires stem != [] && e != [] && '.' !in e
    ensures Suffix(stem + "." + e) == "." + e
    decreases |e|
  {
    var name := stem + "." + e;
    assert LastDot(name) == |stem| by {
      LastDotPast(stem + ".", e);
    }
    assert name[|stem|..] == "." + e;
  }

  /** Appending dot-free text does not move the last dot. */
  lemma {:induction false} LastDotPast(s: string, e: string)
    requires '.' !in e
    ensures LastDot(s + e) == LastDot(s)
    decreases |e|
  {
    if e != [] {
      var e' := e[..|e| - 1];
      assert (s + e)[..|s + e| - 1] == s + e';
      assert (s + e)[|s + e| - 1] == e[|e| - 1];
      LastDotPast(s, e');
    } else {
      assert s + e == s;
    }
  }

  /** A name without dots has no suffix. */
  lemma NoDotNoSuffix(name: string)
    requires '.' !in name
    ensures Suffix(name) == ""
  {
    LastDotPast([], name);
    assert [] + name == name;
  }

  /** A name whose only dot leads it (`.gitignore`, `.cpp`) has no suffix. */
  lemma HiddenNoSuffix(e: string)
    requires '.' !in e
    ensures Suffix("." + e) == ""
  {
    LastDotPast(".", e);
    assert LastDot(".") == 0;
  }

  /** A name ending in a dot has no suffix. */
  lemma TrailingDotNoSuffix(stem: string)
    ensures Suffix(stem + ".") == ""
  {
    var name := stem + ".";
    assert name[|name| - 1] == '.';
  }

  /** A final component is its own name, whatever directories precede it. */
  lemma NameOfComponent(dir: string, name: string)
    requires name != [] && name != "." && '/' !in name
    ensures Name(name) == name && Name(dir + "/" + name) == name
  {
    AfterSlashOf([], name);
    assert [] + name == name;
    AfterSlashOf(dir + "/", name);
  }

  lemma {:induction false} AfterSlashOf(s: string, name: string)
    requires '/' !in name && (s == [] || s[|s| - 1] == '/')
    ensures AfterLastSlash(s + name) == name
    decreases |name|
  {
    if name == [] {
      assert s + name == s;
    } else {
      var n' := name[..|name| - 1];
      assert (s + name)[..|s + name| - 1] == s + n';
      assert (s + name)[|s + name| - 1] == name[|name| - 1];
      AfterSlashOf(s, n');
    }
  }

  /** An extension as the table spells it: a dot, then at least one character, no dot or slash. */
  predicate IsExtension(ext: string) {
    |ext| >= 2 && ext[0] == '.' && '.' !in ext[1..] && '/' !in ext
  }

  /** The suffix of `stem` + `ext`, alone or under a directory, is `ext`. */
  lemma SuffixOfPath(dir: string, stem: string, ext: string)
    requires stem != [] && '/' !in stem && IsExtension(ext)
    ensures PathSuffix(stem + ext) == ext
    ensures PathSuffix(dir + "/" + (stem + ext)) == ext
  {
    var e := ext[1..];
    assert ext == "." + e;
    assert stem + ext == stem + "." + e;
    NameOfComponent(dir, stem + ext);
    SuffixOf(stem, e);
  }

  /** The language of `stem` + `ext`, alone or under a directory, is the table's entry for `ext`. */
  lemma DetectOf(dir: string, stem: string, ext: string)
    requires stem != [] && '/' !in stem && IsExtension(ext)
    ensures var lang := if ext in ExtMap then ExtMap[ext] else Unknown;
      DetectLanguage(stem + ext) == lang && DetectLanguage(dir + "/" + (stem + ext)) == lang
  {
    SuffixOfPath(dir, stem, ext);
  }

  /** Only the last extension counts: `main.test.rs` is Rust. */
  lemma LastExtensionCounts(dir: string, stem: string, inner: string)
    requires stem != [] && '/' !in stem && '/' !in inner
    ensures DetectLanguage(dir + "/" + (stem + inner + ".rs")) == Rust
  {
    var ext := ".rs";
    assert IsExtension(ext);
    DetectOf(dir, stem + inner, ext);
  }

  /** Capital `.C` is C++; capital `.CPP` is not. */
  lemma CaseSensitive(dir: string, stem: string)
    requires stem != [] && '/' !in stem
    ensures DetectLanguage(dir + "/" + (stem + ".C")) == Cpp
    ensures DetectLanguage(dir + "/" + (stem + ".CPP")) == Unknown
  {
    var c := ".C";
    var cpp := ".CPP";
    assert IsExtension(c) && IsExtension(cpp);
    DetectOf(dir, stem, c);
    DetectOf(dir, stem, cpp);
    ExtMapEntries(cpp);
  }

  /** `.gitignore` and `.cpp` are stems, not suffixes. */
  lemma HiddenFileUnknown(e: string)
    requires e != [] && '.' !in e && '/' !in e
    ensures DetectLanguage("." + e) == Unknown
  {
    NameOfComponent("", "." + e);
    HiddenNoSuffix(e);
    ExtMapEntries("");
  }

  lemma EmptyPathUnknown()
    ensures DetectLanguage("") == Unknown && !IsSupported("")
  {
  }

  /** A name without a dot, such as `Makefile`, has no language. */
  lemma NoDotUnknown(name: string)
    requires name != [] && '.' !in name && '/' !in name
    ensures DetectLanguage(name) == Unknown
  {
    NameOfComponent("", name);
    NoDotNoSuffix(name);
    ExtMapEntries("");
  }
}
