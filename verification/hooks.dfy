/** The text transforms the monitor applies to the shell start-up files:
    installing a logging hook (`setup_terminal_hooks`) and removing every
    hook line again (`cleanup_hooks`). A start-up file is `None` when it
    does not exist; neither transform creates or deletes one. */
module Hooks {
  import opened Wrappers
  import opened Text

  /** The name of the Bash logging function, and the marker `cleanup_hooks`
      looks for first. */
  const LogFunction: string := "log_command"

  /** The Zsh hook's function header, another cleanup marker. */
  const Preexec: string := "preexec()"

  /** The Bash trap line without its newline, the remaining cleanup marker. */
  const BashTrap: string := "trap " + LogFunction + " DEBUG"

  /** The Bash function line up to the log path: the function header, the
      capture of `$BASH_COMMAND` and the start of the `echo` redirection. */
  const BashFunctionHead: string :=
    "function " + LogFunction + "()" + BashCapture + BashEcho

  const BashCapture: string := " { command_entered=\"$BASH_COMMAND\";"

  const BashEcho: string := " echo \"$command_entered\" >> \""

  const ZshFunctionHead: string := Preexec + " { echo \"$1\" >> \""

  /** What follows the log path on each hook's function line. */
  const PathClose: string := "\"; }"

  /** The Bash function line without its newline: it echoes the command
      about to run to the log file. */
  function BashFunction(logPath: string): string {
    BashFunctionHead + logPath + PathClose
  }

  /** The Zsh function line without its newline: it echoes the command
      line about to run to the log file. */
  function ZshFunction(logPath: string): string {
    ZshFunctionHead + logPath + PathClose
  }

  /** The block appended to `~/.bashrc`: a blank line, the logging
      function, and a DEBUG trap calling it before every command. */
  function BashHook(logPath: string): string {
    "\n" + BashFunction(logPath) + "\n" + BashTrap + "\n"
  }

  /** The block appended to `~/.zshrc`: a blank line and the `preexec`
      function. */
  function ZshHook(logPath: string): string {
    "\n" + ZshFunction(logPath) + "\n"
  }

  /** Each hook names the log file it writes to. */
  lemma BashHookMentionsPath(logPath: string)
    ensures Contains(BashHook(logPath), logPath)
  {
    var f := BashFunction(logPath);
    ContainsMiddle(BashFunctionHead, logPath, PathClose);
    ContainsInSuffix("\n", f, logPath);
    ContainsInPrefix("\n" + f, "\n", logPath);
    ContainsInPrefix("\n" + f + "\n", BashTrap, logPath);
    ContainsInPrefix("\n" + f + "\n" + BashTrap, "\n", logPath);
  }

  lemma ZshHookMentionsPath(logPath: string)
    ensures Contains(ZshHook(logPath), logPath)
  {
    var f := ZshFunction(logPath);
    ContainsMiddle(ZshFunctionHead, logPath, PathClose);
    ContainsInSuffix("\n", f, logPath);
    ContainsInPrefix("\n" + f, "\n", logPath);
  }

  /** Installing `hook` into one start-up file: a missing file stays
      missing, a file that already mentions the log path anywhere is left
      alone, and any other file gets the hook appended. */
  function Install(content: Option<string>, hook: string, logPath: string): (r: Option<string>)
    ensures r.None? <==> content.None?
    ensures content.Some? ==> content.value <= r.value
    ensures content.Some? && Contains(content.value, logPath) ==> r == content
    ensures content.Some? && !Contains(content.value, logPath) ==>
      r.value[|content.value|..] == hook
  {
    match content
    case None => None
    case Some(c) => if Contains(c, logPath) then Some(c) else Some(c + hook)
  }

  /** After installing a hook that names the log path, an existing file
      mentions the path. */
  lemma InstallMentionsPath(content: Option<string>, hook: string, logPath: string)
    requires Contains(hook, logPath)
    ensures var r := Install(content, hook, logPath); r.Some? ==> Contains(r.value, logPath)
  {
    if content.Some? && !Contains(content.value, logPath) {
      ContainsInSuffix(content.value, hook, logPath);
    }
  }

  /** For a hook that names the log path, installing twice is installing
      once. */
  lemma InstallIdempotent(content: Option<string>, hook: string, logPath: string)
    requires Contains(hook, logPath)
    ensures Install(Install(content, hook, logPath), hook, logPath) == Install(content, hook, logPath)
  {
    InstallMentionsPath(content, hook, logPath);
  }

  /** The lines `cleanup_hooks` writes back: those containing none of
      `log_command`, `trap log_command DEBUG` and `preexec()`. */
  predicate KeepLine(l: string) {
    && !Contains(l, LogFunction)
    && !Contains(l, BashTrap)
    && !Contains(l, Preexec)
  }

  /** The second test is subsumed by the first: a line holding
      `trap log_command DEBUG` holds `log_command`. */
  lemma KeepLineTwoMarkers(l: string)
    ensures KeepLine(l) <==> !Contains(l, LogFunction) && !Contains(l, Preexec)
  {
    ContainsMiddle("trap ", LogFunction, " DEBUG");
    if Contains(l, BashTrap) {
      ContainsTrans(l, BashTrap, LogFunction);
    }
  }

  /** The lines kept, in their original order. */
  function Kept(ls: seq<string>): (r: seq<string>)
    ensures |r| <= |ls|
    ensures forall l :: l in r <==> l in ls && KeepLine(l)
    decreases |ls|
  {
    if ls == [] then []
    else
      var rest := Kept(ls[1..]);
      if KeepLine(ls[0]) then [ls[0]] + rest else rest
  }

  /** Filtering distributes over concatenation, so the kept lines keep the
      order they had in the file. */
  lemma {:induction false} KeptAppend(a: seq<string>, b: seq<string>)
    ensures Kept(a + b) == Kept(a) + Kept(b)
    decreases |a|
  {
    if a != [] {
      assert (a + b)[0] == a[0];
      assert (a + b)[1..] == a[1..] + b;
      KeptAppend(a[1..], b);
    } else {
      assert a + b == b;
    }
  }

  /** Filtering what is already filtered changes nothing. */
  lemma {:induction false} KeptIdempotent(ls: seq<string>)
    ensures Kept(Kept(ls)) == Kept(ls)
    decreases |ls|
  {
    if ls != [] {
      KeptIdempotent(ls[1..]);
      if KeepLine(ls[0]) {
        assert ([ls[0]] + Kept(ls[1..]))[1..] == Kept(ls[1..]);
      }
    }
  }

  /** The kept lines of a file's lines are again a file's lines. */
  lemma {:induction false} KeptWellFormed(ls: seq<string>)
    requires WellFormedLines(ls)
    ensures WellFormedLines(Kept(ls))
    decreases |ls|
  {
    if ls != [] {
      assert WellFormedLines(ls[1..]);
      KeptWellFormed(ls[1..]);
      var rest := Kept(ls[1..]);
      if KeepLine(ls[0]) && rest != [] {
        assert rest[0] in ls[1..];
        assert |ls| > 1;
        ConsLine(ls[0], rest);
      } else if KeepLine(ls[0]) {
        assert [ls[0]] + rest == [ls[0]];
      }
    }
  }

  /** `cleanup_hooks` on one start-up file: a missing file stays missing;
      an existing one is rewritten with exactly its kept lines, in order. */
  function Cleanup(content: Option<string>): (r: Option<string>)
    ensures r.None? <==> content.None?
    ensures r.Some? ==> SplitLines(r.value) == Kept(SplitLines(content.value))
    ensures r.Some? ==> |r.value| <= |content.value|
  {
    match content
    case None => None
    case Some(c) =>
      var ls := SplitLines(c);
      KeptWellFormed(ls);
      SplitJoin(Kept(ls));
      KeptJoinLength(ls);
      Some(Join(Kept(ls)))
  }

  lemma {:induction false} KeptJoinLength(ls: seq<string>)
    ensures |Join(Kept(ls))| <= |Join(ls)|
    decreases |ls|
  {
    if ls != [] {
      KeptJoinLength(ls[1..]);
      if KeepLine(ls[0]) {
        assert ([ls[0]] + Kept(ls[1..]))[1..] == Kept(ls[1..]);
      }
    }
  }

  /** Cleaning twice is cleaning once. */
  lemma CleanupIdempotent(content: Option<string>)
    ensures Cleanup(Cleanup(content)) == Cleanup(content)
  {
    if content.Some? {
      var ls := SplitLines(content.value);
      KeptIdempotent(ls);
    }
  }

  /** Cleaning a file that ends with whole lines followed by more lines is
      cleaning the two parts separately. */
  lemma CleanupAppend(c: string, more: seq<string>)
    requires c == [] || EndsWithNewline(c)
    requires WellFormedLines(more)
    ensures Cleanup(Some(c + Join(more))).value == Cleanup(Some(c)).value + Join(Kept(more))
  {
    SplitAppend(c, Join(more));
    SplitJoin(more);
    KeptAppend(SplitLines(c), more);
    JoinAppend(Kept(SplitLines(c)), Kept(more));
  }

  lemma ShortNotContained(s: string, sub: string)
    requires |s| < |sub|
    ensures !Contains(s, sub)
  {
  }

  /** The Bash hook as the lines `readlines` sees. */
  function BashLines(logPath: string): seq<string> {
    ["\n", BashFunction(logPath) + "\n", BashTrap + "\n"]
  }

  lemma JoinThree(a: string, b: string, c: string)
    ensures Join([a, b, c]) == a + b + c
  {
    var ls := [a, b, c];
    assert ls[1..] == [b, c];
    assert [b, c][1..] == [c];
    assert [c][1..] == [];
    assert Join([c]) == c;
    assert Join([b, c]) == b + c;
  }

  lemma KeptFirstOfThree(a: string, b: string, c: string)
    requires KeepLine(a) && !KeepLine(b) && !KeepLine(c)
    ensures Kept([a, b, c]) == [a]
  {
    var ls := [a, b, c];
    assert ls[1..] == [b, c];
    assert [b, c][1..] == [c];
    assert [c][1..] == [];
    assert Kept([c]) == [];
    assert Kept([b, c]) == [];
  }

  lemma BashFunctionOneLine(logPath: string)
    requires '\n' !in logPath
    ensures '\n' !in BashFunction(logPath)
  {
    assert '\n' !in BashCapture;
    assert '\n' !in BashEcho;
    assert '\n' !in "function " + LogFunction + "()";
    assert '\n' !in BashFunctionHead;
  }

  lemma BashLinesWellFormed(logPath: string)
    requires '\n' !in logPath
    ensures WellFormedLines(BashLines(logPath))
  {
    NewlineEnded([]);
    assert [] + "\n" == "\n";
    BashFunctionOneLine(logPath);
    NewlineEnded(BashFunction(logPath));
    NewlineEnded(BashTrap);
  }

  lemma BashLinesJoin(logPath: string)
    ensures Join(BashLines(logPath)) == BashHook(logPath)
  {
    JoinThree("\n", BashFunction(logPath) + "\n", BashTrap + "\n");
  }

  lemma BashLinesKept(logPath: string)
    ensures Kept(BashLines(logPath)) == ["\n"]
  {
    var f := BashFunction(logPath);
    ShortNotContained("\n", LogFunction);
    ShortNotContained("\n", BashTrap);
    ShortNotContained("\n", Preexec);
    ContainsMiddle("function ", LogFunction, "()");
    ContainsInPrefix("function " + LogFunction + "()", BashCapture, LogFunction);
    ContainsInPrefix("function " + LogFunction + "()" + BashCapture, BashEcho, LogFunction);
    ContainsInPrefix(BashFunctionHead, logPath, LogFunction);
    ContainsInPrefix(BashFunctionHead + logPath, PathClose, LogFunction);
    ContainsInPrefix(f, "\n", LogFunction);
    ContainsMiddle("trap ", LogFunction, " DEBUG");
    ContainsInPrefix(BashTrap, "\n", LogFunction);
    KeptFirstOfThree("\n", f + "\n", BashTrap + "\n");
  }

  /** Installing the Bash hook into a file that does not mention the log
      path and then cleaning it gives the cleaned file plus one blank line:
      the blank line that opens the hook survives the cleanup, so every
      start/stop cycle leaves one more blank line behind. */
  lemma BashInstallThenCleanup(c: string, logPath: string)
    requires c == [] || EndsWithNewline(c)
    requires '\n' !in logPath && !Contains(c, logPath)
    ensures Cleanup(Install(Some(c), BashHook(logPath), logPath)) == Some(Cleanup(Some(c)).value + "\n")
  {
    BashLinesWellFormed(logPath);
    BashLinesJoin(logPath);
    BashLinesKept(logPath);
    CleanupAppend(c, BashLines(logPath));
    assert Join(["\n"]) == "\n";
    var installed := c + Join(BashLines(logPath));
    assert Install(Some(c), BashHook(logPath), logPath) == Some(installed);
    var r := Cleanup(Some(installed));
    assert r.value == Cleanup(Some(c)).value + "\n";
  }

  lemma JoinTwo(a: string, b: string)
    ensures Join([a, b]) == a + b
  {
    assert [a, b][1..] == [b];
    assert [b][1..] == [];
    assert Join([b]) == b;
  }

  lemma KeptFirstOfTwo(a: string, b: string)
    requires KeepLine(a) && !KeepLine(b)
    ensures Kept([a, b]) == [a]
  {
    assert [a, b][1..] == [b];
    assert [b][1..] == [];
    assert Kept([b]) == [];
  }

  /** The Zsh hook as the lines `readlines` sees. */
  function ZshLines(logPath: string): seq<string> {
    ["\n", ZshFunction(logPath) + "\n"]
  }

  lemma ZshLinesShape(logPath: string)
    requires '\n' !in logPath
    ensures WellFormedLines(ZshLines(logPath))
    ensures Join(ZshLines(logPath)) == ZshHook(logPath)
    ensures Kept(ZshLines(logPath)) == ["\n"]
  {
    var f := ZshFunction(logPath);
    NewlineEnded([]);
    assert [] + "\n" == "\n";
    assert '\n' !in ZshFunctionHead;
    NewlineEnded(f);
    JoinTwo("\n", f + "\n");
    ShortNotContained("\n", LogFunction);
    ShortNotContained("\n", BashTrap);
    ShortNotContained("\n", Preexec);
    ContainsInPrefix(Preexec, " { echo \"$1\" >> \"", Preexec);
    ContainsInPrefix(ZshFunctionHead, logPath + PathClose + "\n", Preexec);
    assert f + "\n" == ZshFunctionHead + (logPath + PathClose + "\n");
    KeptFirstOfTwo("\n", f + "\n");
  }

  /** The same for the Zsh hook: cleaning after installing leaves the
      cleaned file plus the blank line the hook opened with. */
  lemma ZshInstallThenCleanup(c: string, logPath: string)
    requires c == [] || EndsWithNewline(c)
    requires '\n' !in logPath && !Contains(c, logPath)
    ensures Cleanup(Install(Some(c), ZshHook(logPath), logPath)) == Some(Cleanup(Some(c)).value + "\n")
  {
    ZshLinesShape(logPath);
    CleanupAppend(c, ZshLines(logPath));
    assert Join(["\n"]) == "\n";
    var installed := c + Join(ZshLines(logPath));
    assert Install(Some(c), ZshHook(logPath), logPath) == Some(installed);
    var r := Cleanup(Some(installed));
    assert r.value == Cleanup(Some(c)).value + "\n";
  }
}
