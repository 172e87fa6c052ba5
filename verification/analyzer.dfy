/**
  Flag extraction from a compilation database (`compile_commands.json`):
  the first entry whose resolved path is the resolved source file supplies
  its command, which is split into arguments; the arguments after the
  compiler that start with `-I`, `-D`, `-std`, `-f` or `-m` are kept in order.
  Any failure (a database that cannot be loaded, an entry without a file or
  command, a command that cannot be split) yields no flags.

  Loading the JSON, `Path.resolve` and `shlex.split` are parameters: the
  database is `None` when it cannot be loaded, `resolve` gives the resolved
  path of a directory and file, and `split` gives `None` when it raises.
*/
module Analyzer {
  import opened Wrappers

  /** One database entry; a missing key is `None`. */
  datatype Entry = Entry(directory: Option<string>, file: Option<string>, command: Option<string>)

  /** The prefixes of the flags worth keeping: include paths, defines, standard, `-f` and `-m` options. */
  const UsefulPrefixes: seq<string> := ["-I", "-D", "-std", "-f", "-m"]

  predicate IsUseful(arg: string) {
    exists k :: 0 <= k < |UsefulPrefixes| && UsefulPrefixes[k] <= arg
  }

  /** The useful arguments, in order. */
  function UsefulFlags(args: seq<string>): seq<string>
    decreases |args|
  {
    if args == [] then []
    else UsefulFlags(args[..|args| - 1]) + (if IsUseful(args[|args| - 1]) then [args[|args| - 1]] else [])
  }

  /** The directory an entry is relative to; `.` when the entry names none. */
  function Directory(e: Entry): string {
    if e.directory.Some? then e.directory.value else "."
  }

  /** The flags an entry supplies once it is the one: none when its command is missing or cannot be split. */
  function EntryFlags(e: Entry, split: string -> Option<seq<string>>): seq<string> {
    if e.command.None? then []
    else
      match split(e.command.value)
      case None => []
      case Some(args) => if args == [] then [] else UsefulFlags(args[1..])
  }

  /** The flags `get_flags_from_db` returns for the entries, from the front. */
  function Lookup(entries: seq<Entry>, absSource: string, resolve: (string, string) -> string,
                  split: string -> Option<seq<string>>): seq<string>
    decreases |entries|
  {
    if entries == [] then []
    else
      var e := entries[0];
      if e.file.None? then []
      else if resolve(Directory(e), e.file.value) == absSource then EntryFlags(e, split)
      else Lookup(entries[1..], absSource, resolve, split)
  }

  /** `get_flags_from_db`, with the database already loaded (or not) and the source already resolved. */
  method GetFlagsFromDb(db: Option<seq<Entry>>, absSource: string, resolve: (string, string) -> string,
                        split: string -> Option<seq<string>>)
    returns (flags: seq<string>)
    ensures db.None? ==> flags == []
    ensures db.Some? ==> flags == Lookup(db.value, absSource, resolve, split)
  {
    if db.None? {
      return [];
    }
    var commands := db.value;
    var i := 0;
    while i < |commands|
      invariant 0 <= i <= |commands|
      invariant Lookup(commands, absSource, resolve, split) == Lookup(commands[i..], absSource, resolve, split)
    {
      var entry := commands[i];
      assert commands[i..][1..] == commands[i + 1..];
      if entry.file.None? {
        return [];
      }
      var entryFile := resolve(Directory(entry), entry.file.value);
      if entryFile == absSource {
        if entry.command.None? {
          return [];
        }
        var parsed := split(entry.command.value);
        if parsed.None? {
          return [];
        }
        var args := parsed.value;
        var usefulFlags: seq<string> := [];
        if args != [] {
          var rest := args[1..];
          var j := 0;
          while j < |rest|
            invariant 0 <= j <= |rest|
            invariant usefulFlags == UsefulFlags(rest[..j])
          {
            var arg := rest[j];
            UsefulStep(rest, j);
            if "-I" <= arg || "-D" <= arg || "-std" <= arg || "-f" <= arg || "-m" <= arg {
              UsefulIs(arg);
              usefulFlags := usefulFlags + [arg];
            } else {
              UsefulIs(arg);
            }
            j := j + 1;
          }
          assert rest[..j] == rest;
        }
        return usefulFlags;
      }
      i := i + 1;
    }
    return [];
  }

  lemma UsefulStep(args: seq<string>, j: nat)
    requires j < |args|
    ensures UsefulFlags(args[..j + 1]) == UsefulFlags(args[..j]) + (if IsUseful(args[j]) then [args[j]] else [])
  {
    assert args[..j + 1][..j] == args[..j];
  }

  /** The prefix test of the source is membership in the prefix list. */
  lemma UsefulIs(arg: string)
    ensures IsUseful(arg) <==> ("-I" <= arg || "-D" <= arg || "-std" <= arg || "-f" <= arg || "-m" <= arg)
  {
    if "-I" <= arg { assert UsefulPrefixes[0] <= arg; }
    if "-D" <= arg { assert UsefulPrefixes[1] <= arg; }
    if "-std" <= arg { assert UsefulPrefixes[2] <= arg; }
    if "-f" <= arg { assert UsefulPrefixes[3] <= arg; }
    if "-m" <= arg { assert UsefulPrefixes[4] <= arg; }
  }

  // ---------------------------------------------------------------------------
  // Properties
  // ---------------------------------------------------------------------------

  /** `a` can be obtained from `b` by deleting elements. */
  predicate IsSubsequence(a: seq<string>, b: seq<string>)
    decreases |b|
  {
    a == [] ||
    (b != [] &&
      ((a[|a| - 1] == b[|b| - 1] && IsSubsequence(a[..|a| - 1], b[..|b| - 1])) || IsSubsequence(a, b[..|b| - 1])))
  }

  /** The kept arguments are a subsequence of the arguments. */
  lemma {:induction false} UsefulIsSubsequence(args: seq<string>)
    ensures IsSubsequence(UsefulFlags(args), args)
    decreases |args|
  {
    if args != [] {
      var init := args[..|args| - 1];
      var last := args[|args| - 1];
      UsefulIsSubsequence(init);
      var u := UsefulFlags(args);
      if IsUseful(last) {
        assert u == UsefulFlags(init) + [last];
        assert u[..|u| - 1] == UsefulFlags(init);
        assert u[|u| - 1] == last;
      } else {
        assert u == UsefulFlags(init);
        if u != [] {
          assert IsSubsequence(u, init);
        }
      }
    }
  }

  /** Every kept argument has a useful prefix and is one of the arguments. */
  lemma {:induction false} UsefulSound(args: seq<string>)
    ensures forall k :: 0 <= k < |UsefulFlags(args)| ==> UsefulFlags(args)[k] in args && IsUseful(UsefulFlags(args)[k])
    decreases |args|
  {
    if args != [] {
      var init := args[..|args| - 1];
      UsefulSound(init);
      forall k | 0 <= k < |UsefulFlags(init)| ensures UsefulFlags(init)[k] in args {
        assert UsefulFlags(init)[k] in init;
      }
    }
  }

  /** Every argument with a useful prefix is kept. */
  lemma {:induction false} UsefulComplete(args: seq<string>)
    ensures forall k :: 0 <= k < |args| && IsUseful(args[k]) ==> args[k] in UsefulFlags(args)
    decreases |args|
  {
    if args != [] {
      var init := args[..|args| - 1];
      UsefulComplete(init);
      forall k | 0 <= k < |args| && IsUseful(args[k]) ensures args[k] in UsefulFlags(args) {
        if k < |args| - 1 {
          assert args[k] == init[k];
        }
      }
    }
  }

  /**
    The compiler, the first argument, is never kept, whatever it looks like:
    the flags are drawn from the arguments after it, and two commands that
    differ only in their first argument give the same flags.
  */
  lemma CompilerSkipped(e: Entry, split: string -> Option<seq<string>>, split': string -> Option<seq<string>>)
    requires e.command.Some? && split(e.command.value).Some? && split'(e.command.value).Some?
    requires |split(e.command.value).value| >= 1 && |split'(e.command.value).value| >= 1
    requires split(e.command.value).value[1..] == split'(e.command.value).value[1..]
    ensures IsSubsequence(EntryFlags(e, split), split(e.command.value).value[1..])
    ensures EntryFlags(e, split) == EntryFlags(e, split')
  {
    UsefulIsSubsequence(split(e.command.value).value[1..]);
  }

  /** A compiler path that looks like a flag, as in `-Ifoo x -DY`, is still skipped. */
  lemma FlagLikeCompilerSkipped(e: Entry, split: string -> Option<seq<string>>)
    requires e.command.Some? && split(e.command.value) == Some(["-Ifoo", "x", "-DY"])
    ensures EntryFlags(e, split) == ["-DY"]
  {
    var args := ["x", "-DY"];
    assert split(e.command.value).value[1..] == args;
    NotUseful("x");
    assert UsefulPrefixes[1] <= "-DY";
    UsefulStep(args, 0);
    UsefulStep(args, 1);
    assert args[..0] == [] && args[..2] == args;
  }

  /** The entry that is chosen: it has a file that resolves to the source. */
  predicate Matches(e: Entry, absSource: string, resolve: (string, string) -> string) {
    e.file.Some? && resolve(Directory(e), e.file.value) == absSource
  }

  /**
    Only the first matching entry counts: when every entry before index `j`
    has a file that resolves elsewhere, the flags are those of entry `j`,
    whatever follows it.
  */
  lemma {:induction false} FirstMatchWins(entries: seq<Entry>, j: nat, absSource: string,
                                          resolve: (string, string) -> string, split: string -> Option<seq<string>>)
    requires j < |entries| && Matches(entries[j], absSource, resolve)
    requires forall i :: 0 <= i < j ==> entries[i].file.Some? && !Matches(entries[i], absSource, resolve)
    ensures Lookup(entries, absSource, resolve, split) == EntryFlags(entries[j], split)
    decreases j
  {
    if j > 0 {
      FirstMatchWins(entries[1..], j - 1, absSource, resolve, split);
    }
  }

  /** With no matching entry, and every entry naming a file, there are no flags. */
  lemma {:induction false} NoMatchNoFlags(entries: seq<Entry>, absSource: string,
                                          resolve: (string, string) -> string, split: string -> Option<seq<string>>)
    requires forall i :: 0 <= i < |entries| ==> entries[i].file.Some? && !Matches(entries[i], absSource, resolve)
    ensures Lookup(entries, absSource, resolve, split) == []
    decreases |entries|
  {
    if entries != [] {
      NoMatchNoFlags(entries[1..], absSource, resolve, split);
    }
  }

  /** An entry without a file, met before any match, ends the search with no flags (the lookup raises). */
  lemma {:induction false} MissingFileNoFlags(entries: seq<Entry>, j: nat, absSource: string,
                                              resolve: (string, string) -> string, split: string -> Option<seq<string>>)
    requires j < |entries| && entries[j].file.None?
    requires forall i :: 0 <= i < j ==> entries[i].file.Some? && !Matches(entries[i], absSource, resolve)
    ensures Lookup(entries, absSource, resolve, split) == []
    decreases j
  {
    if j > 0 {
      MissingFileNoFlags(entries[1..], j - 1, absSource, resolve, split);
    }
  }

  /** Whatever the lookup returns is a subsequence of some entry's arguments after the compiler, all useful. */
  lemma {:induction false} LookupSound(entries: seq<Entry>, absSource: string,
                                       resolve: (string, string) -> string, split: string -> Option<seq<string>>)
    ensures var r := Lookup(entries, absSource, resolve, split);
      r == [] ||
      exists i :: 0 <= i < |entries| && entries[i].command.Some? && split(entries[i].command.value).Some? &&
        var args := split(entries[i].command.value).value;
        |args| >= 1 && IsSubsequence(r, args[1..]) && forall k :: 0 <= k < |r| ==> IsUseful(r[k])
    decreases |entries|
  {
    var r := Lookup(entries, absSource, resolve, split);
    if entries != [] && r != [] {
      var e := entries[0];
      if resolve(Directory(e), e.file.value) == absSource {
        var args := split(e.command.value).value;
        UsefulIsSubsequence(args[1..]);
        UsefulSound(args[1..]);
      } else {
        LookupSound(entries[1..], absSource, resolve, split);
        var i :| 0 <= i < |entries[1..]| && entries[1..][i].command.Some? && split(entries[1..][i].command.value).Some? &&
          var args := split(entries[1..][i].command.value).value;
          |args| >= 1 && IsSubsequence(r, args[1..]) && forall k :: 0 <= k < |r| ==> IsUseful(r[k]);
        assert entries[i + 1] == entries[1..][i];
      }
    }
  }

  lemma UsefulFive(a: string, b: string, c: string, d: string, e: string)
    requires IsUseful(a) && IsUseful(b) && !IsUseful(c) && !IsUseful(d) && IsUseful(e)
    ensures UsefulFlags([a, b, c, d, e]) == [a, b, e]
  {
    var args := [a, b, c, d, e];
    assert args[..0] == [];
    UsefulStep(args, 0);
    UsefulStep(args, 1);
    UsefulStep(args, 2);
    UsefulStep(args, 3);
    UsefulStep(args, 4);
    assert args[..5] == args;
  }

  lemma TypicalFacts()
    ensures IsUseful("-I/usr/include") && IsUseful("-DDEBUG") && !IsUseful("-O2") && !IsUseful("main.cpp")
    ensures IsUseful("-std=c++17")
  {
    assert UsefulPrefixes[0] <= "-I/usr/include";
    assert UsefulPrefixes[1] <= "-DDEBUG";
    assert UsefulPrefixes[2] <= "-std=c++17";
    NotUseful("-O2");
    NotUseful("main.cpp");
  }

  /** A typical compiler command keeps its include, define and standard flags only. */
  lemma TypicalCommand()
    ensures UsefulFlags(["-I/usr/include", "-DDEBUG", "-O2", "main.cpp", "-std=c++17"])
      == ["-I/usr/include", "-DDEBUG", "-std=c++17"]
  {
    TypicalFacts();
    UsefulFive("-I/usr/include", "-DDEBUG", "-O2", "main.cpp", "-std=c++17");
  }

  /** An argument whose second character is none of `I`, `D`, `s`, `f`, `m` is not useful. */
  lemma NotUseful(arg: string)
    requires |arg| < 2 || (arg[1] != 'I' && arg[1] != 'D' && arg[1] != 's' && arg[1] != 'f' && arg[1] != 'm')
    ensures !IsUseful(arg)
  {
  }
}
