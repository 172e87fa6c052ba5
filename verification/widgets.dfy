/**
  The status bar at the bottom of the window: the current file, the
  compiler flags, the compile status and the error count, re-rendered as
  one line of text whenever any of them is set.
*/
module Widgets {
  import opened Wrappers
  import opened TextUtil

  /** The separator between the parts of the bar. */
  const Separator: string := "  │  "

  function FilePart(file: string): string {
    "📄 " + file
  }

  function FlagsPart(flags: string): string {
    "⚙  " + flags
  }

  function StatusPart(status: string): string {
    "● " + status
  }

  function ErrorsPart(errors: int): string {
    "❌ " + IntToString(errors) + " error(s)"
  }

  /** The parts of the bar: the file and flags when non-empty, the status always, the errors when non-zero. */
  function Parts(file: string, flags: string, status: string, errors: int): seq<string> {
    (if file != "" then [FilePart(file)] else [])
    + (if flags != "" then [FlagsPart(flags)] else [])
    + [StatusPart(status)]
    + (if errors != 0 then [ErrorsPart(errors)] else [])
  }

  function Bar(file: string, flags: string, status: string, errors: int): string {
    Join(Parts(file, flags, status, errors), Separator)
  }

  class StatusBar {
    var file: string
    var flags: string
    var status: string
    var errors: int
    /** The text the bar shows. */
    var rendered: string

    /** A new bar: no file, no flags, `idle`, no errors, nothing shown yet. */
    constructor ()
      ensures file == "" && flags == "" && status == "idle" && errors == 0
      ensures rendered == ""
    {
      file := "";
      flags := "";
      status := "idle";
      errors := 0;
      rendered := "";
    }

    /** Sets exactly the fields given, keeps the others, and re-renders. */
    method SetStatus(newFile: Option<string>, newFlags: Option<string>, newStatus: Option<string>, newErrors: Option<int>)
      modifies this
      ensures file == if newFile.Some? then newFile.value else old(file)
      ensures flags == if newFlags.Some? then newFlags.value else old(flags)
      ensures status == if newStatus.Some? then newStatus.value else old(status)
      ensures errors == if newErrors.Some? then newErrors.value else old(errors)
      ensures rendered == Bar(file, flags, status, errors)
    {
      if newFile.Some? {
        file := newFile.value;
      }
      if newFlags.Some? {
        flags := newFlags.value;
      }
      if newStatus.Some? {
        status := newStatus.value;
      }
      if newErrors.Some? {
        errors := newErrors.value;
      }
      RenderBar();
    }

    /** Collects the parts in order and shows them joined by the separator. */
    method RenderBar()
      modifies this
      ensures file == old(file) && flags == old(flags) && status == old(status) && errors == old(errors)
      ensures rendered == Bar(file, flags, status, errors)
    {
      var parts := [];
      if file != "" {
        parts := parts + [FilePart(file)];
      }
      if flags != "" {
        parts := parts + [FlagsPart(flags)];
      }
      assert parts == (if file != "" then [FilePart(file)] else []) + (if flags != "" then [FlagsPart(flags)] else []);
      parts := parts + [StatusPart(status)];
      if errors != 0 {
        parts := parts + [ErrorsPart(errors)];
      }
      assert parts == Parts(file, flags, status, errors);
      rendered := Join(parts, Separator);
    }
  }

  // ---------------------------------------------------------------------------
  // Properties
  // ---------------------------------------------------------------------------

  /**
    The parts, position by position: the file part first iff there is a
    file, then the flags part iff there are flags, then the status, then the
    error part iff the count is non-zero and nothing after it.
  */
  lemma PartsOrder(file: string, flags: string, status: string, errors: int)
    ensures var ps := Parts(file, flags, status, errors);
      var f := if file != "" then 1 else 0;
      var g := if flags != "" then 1 else 0;
      |ps| == f + g + 1 + (if errors != 0 then 1 else 0) &&
      (file != "" ==> ps[0] == FilePart(file)) &&
      (flags != "" ==> ps[f] == FlagsPart(flags)) &&
      ps[f + g] == StatusPart(status) &&
      (errors != 0 ==> ps[f + g + 1] == ErrorsPart(errors))
  {
  }

  /** The bar always shows the status. */
  lemma BarShowsStatus(file: string, flags: string, status: string, errors: int)
    ensures Contains(Bar(file, flags, status, errors), "● " + status)
  {
    var ps := Parts(file, flags, status, errors);
    PartsOrder(file, flags, status, errors);
    var f := if file != "" then 1 else 0;
    var g := if flags != "" then 1 else 0;
    JoinContainsPart(ps, Separator, f + g);
  }

  /** The bar shows the file when there is one, the flags when set, and the error count when non-zero. */
  lemma BarShowsFileAndErrors(file: string, flags: string, status: string, errors: int)
    ensures file != "" ==> Contains(Bar(file, flags, status, errors), "📄 " + file)
    ensures flags != "" ==> Contains(Bar(file, flags, status, errors), "⚙  " + flags)
    ensures errors != 0 ==> Contains(Bar(file, flags, status, errors), ErrorsPart(errors))
  {
    var ps := Parts(file, flags, status, errors);
    PartsOrder(file, flags, status, errors);
    var f := if file != "" then 1 else 0;
    var g := if flags != "" then 1 else 0;
    if file != "" {
      JoinContainsPart(ps, Separator, 0);
    }
    if flags != "" {
      JoinContainsPart(ps, Separator, f);
    }
    if errors != 0 {
      JoinContainsPart(ps, Separator, f + g + 1);
    }
  }

  /** A new bar, once rendered, shows only the idle status. */
  lemma IdleBar()
    ensures Bar("", "", "idle", 0) == "● idle"
  {
  }
}
