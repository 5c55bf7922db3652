/** The command log's line format: the line `log_command` appends for one
    command, and the split of a stored line into timestamp and command that
    the search applies to every line it reads. */
module LogFormat {
  import opened Wrappers
  import opened Text

  /** One log entry as the search sees it. `ts` is empty for a line that
      carries no timestamp. */
  datatype Record = Record(ts: string, cmd: string)

  /** The line `log_command` writes: the timestamp in brackets, one space,
      the stripped command and a newline. The timestamp is a parameter; the
      program formats the wall clock as `YYYY-MM-DD HH:MM:SS`. */
  function Entry(ts: string, cmd: string): string {
    "[" + ts + "]" + " " + Strip(cmd) + "\n"
  }

  /** The log file after `log_command` appended one entry: append mode
      creates a missing file and otherwise keeps the old content in front. */
  function Append(log: Option<string>, ts: string, cmd: string): (r: string)
    ensures log.Some? ==> log.value <= r
    ensures var e := Entry(ts, cmd); |e| <= |r| && r[|r| - |e|..] == e
    ensures |r| == (if log.Some? then |log.value| else 0) + |Entry(ts, cmd)|
  {
    (if log.Some? then log.value else "") + Entry(ts, cmd)
  }

  /** The first `]` of `line` is at index `k`, past the first character. */
  predicate FirstBracketAt(line: string, k: int) {
    0 < k < |line| && line[k] == ']' && ']' !in line[..k]
  }

  /** Splits an already stripped line on its first `]`. Only when that
      bracket sits past index 0 is a timestamp split off (dropping the
      character in front of it, normally `[`) and the remainder stripped;
      otherwise the whole line is the command and the timestamp is empty. */
  function Parse(line: string): (r: Record)
    ensures (']' !in line || line[0] == ']') ==> r == Record("", line)
    ensures forall k :: FirstBracketAt(line, k) ==> r == Record(line[1..k], Strip(line[k + 1..]))
    ensures ']' !in r.ts
  {
    FirstBracketFound(line);
    var k := Find(line, ']');
    if k > 0 then
      assert line[1..k] == line[..k][1..];
      Record(line[1..k], Strip(line[k + 1..]))
    else
      assert forall j :: !FirstBracketAt(line, j);
      Record("", line)
  }

  lemma FirstBracketFound(line: string)
    ensures forall k :: FirstBracketAt(line, k) ==> Find(line, ']') == k
  {
    forall k | FirstBracketAt(line, k)
      ensures Find(line, ']') == k
    {
      FindIsFirst(line, ']', k);
    }
  }

  /** The record the search reads from one raw line of the file. */
  function LineRecord(line: string): Record {
    Parse(Strip(line))
  }

  /** Whether a raw line is blank; the search skips such lines. */
  predicate IsBlank(line: string) {
    Strip(line) == []
  }

  /** A line that opens with a bracketed timestamp free of `]` parses to
      that timestamp and the stripped remainder. */
  lemma ParseBracketed(ts: string, rest: string)
    requires ']' !in ts
    ensures Parse("[" + ts + "]" + rest) == Record(ts, Strip(rest))
  {
    var line := "[" + ts + "]" + rest;
    var k := |ts| + 1;
    assert line[k] == ']';
    assert line[..k] == "[" + ts;
    assert FirstBracketAt(line, k);
    assert line[1..k] == ts;
    assert line[k + 1..] == rest;
  }

  /** What is left after the bracketed timestamp once the line is stripped. */
  function Pad(c: string): string {
    if c == [] then [] else " " + c
  }

  lemma StripPad(c: string)
    requires Stripped(c)
    ensures Strip(Pad(c)) == c
  {
    if c != [] {
      StripFrame(" ", c, []);
      assert " " + c + [] == Pad(c);
    }
  }

  lemma StripEntry(ts: string, c: string)
    requires Stripped(c)
    ensures Strip("[" + ts + "]" + " " + c + "\n") == "[" + ts + "]" + Pad(c)
  {
    StampStripped(ts);
    if c == [] {
      StripBareEntry("[" + ts + "]");
    } else {
      StripFullEntry("[" + ts + "]", c);
    }
  }

  lemma StampStripped(ts: string)
    ensures Stripped("[" + ts + "]")
  {
    var head := "[" + ts + "]";
    assert head[0] == '[';
    assert head[|head| - 1] == ']';
  }

  lemma StripBareEntry(head: string)
    requires Stripped(head)
    ensures Strip(head + " " + [] + "\n") == head
  {
    assert head + " " + [] == head + " ";
    Regroup([], head, " ", "\n");
    assert AllSpace(" " + "\n");
    StripFrame([], head, " " + "\n");
  }

  lemma StripFullEntry(head: string, c: string)
    requires Stripped(head) && head != [] && Stripped(c) && c != []
    ensures Strip(head + " " + c + "\n") == head + (" " + c)
  {
    var core := head + (" " + c);
    assert Stripped(core) by {
      assert core[0] == head[0];
      assert core[|core| - 1] == c[|c| - 1];
    }
    assert head + " " + c == core;
    StripFrame([], core, "\n");
    assert [] + core + "\n" == core + "\n";
  }

  /** Round trip of one entry: for a timestamp without `]`, reading back the
      line `log_command` wrote yields that timestamp and the stripped command. */
  lemma EntryRoundTrip(ts: string, cmd: string)
    requires ']' !in ts
    ensures LineRecord(Entry(ts, cmd)) == Record(ts, Strip(cmd))
  {
    var c := Strip(cmd);
    StripEntry(ts, c);
    ParseBracketed(ts, Pad(c));
    StripPad(c);
  }

  /** The file content after appending the given (timestamp, command)
      entries to an absent log, oldest first. */
  function Written(entries: seq<Record>): (r: string)
    ensures entries == [] <==> r == []
    ensures r == [] || EndsWithNewline(r)
  {
    if entries == [] then []
    else
      var last := entries[|entries| - 1];
      var prefix := Written(entries[..|entries| - 1]);
      Append(if prefix == [] then None else Some(prefix), last.ts, last.cmd)
  }

  /** What `log_command` can write back faithfully: no `]` in the timestamp
      and no newline in either part. */
  predicate Writable(e: Record) {
    ']' !in e.ts && '\n' !in e.ts && '\n' !in e.cmd
  }

  lemma EntryIsOneLine(ts: string, cmd: string)
    requires '\n' !in ts && '\n' !in cmd
    ensures SplitLines(Entry(ts, cmd)) == [Entry(ts, cmd)]
  {
    var body := "[" + ts + "]" + " " + Strip(cmd);
    assert Entry(ts, cmd) == body + "\n";
    assert '\n' !in body;
    OneLine(body);
  }

  /** The line written for one record. */
  function EntryOf(e: Record): string {
    Entry(e.ts, e.cmd)
  }

  /** The lines `log_command` writes for the given entries, one each. */
  function EntryLines(entries: seq<Record>): (r: seq<string>)
    ensures |r| == |entries|
    ensures forall k :: 0 <= k < |entries| ==> r[k] == EntryOf(entries[k])
  {
    Map(entries, EntryOf)
  }

  /** Reading back a log written entry by entry gives exactly the written
      lines, in append order. */
  lemma {:induction false} WrittenLines(entries: seq<Record>)
    requires forall k :: 0 <= k < |entries| ==> Writable(entries[k])
    ensures SplitLines(Written(entries)) == EntryLines(entries)
    decreases |entries|
  {
    if entries != [] {
      var n := |entries| - 1;
      var last := entries[n];
      var init := entries[..n];
      WrittenLines(init);
      var prefix := Written(init);
      var e := Entry(last.ts, last.cmd);
      WrittenSnoc(entries);
      SplitAppend(prefix, e);
      EntryIsOneLine(last.ts, last.cmd);
      EntryLinesSnoc(entries);
    }
  }

  lemma WrittenSnoc(entries: seq<Record>)
    requires entries != []
    ensures var n := |entries| - 1;
      Written(entries) == Written(entries[..n]) + Entry(entries[n].ts, entries[n].cmd)
  {
  }

  lemma EntryLinesSnoc(entries: seq<Record>)
    requires entries != []
    ensures var n := |entries| - 1;
      EntryLines(entries) == EntryLines(entries[..n]) + [Entry(entries[n].ts, entries[n].cmd)]
  {
    MapSnoc(entries, EntryOf);
  }

  /** Round trip of the whole log: appending entries one after another and
      reading the file back line by line yields one record per entry, in
      append order, each with its timestamp and its stripped command. */
  lemma LogRoundTrip(entries: seq<Record>)
    requires forall k :: 0 <= k < |entries| ==> Writable(entries[k])
    ensures |SplitLines(Written(entries))| == |entries|
    ensures forall k :: 0 <= k < |entries| ==>
      LineRecord(SplitLines(Written(entries))[k]) == Record(entries[k].ts, Strip(entries[k].cmd))
  {
    WrittenLines(entries);
    forall k | 0 <= k < |entries|
      ensures LineRecord(EntryLines(entries)[k]) == Record(entries[k].ts, Strip(entries[k].cmd))
    {
      EntryRoundTrip(entries[k].ts, entries[k].cmd);
    }
  }

  /** The shell hooks append the raw command text with a newline and no
      timestamp. Such a line reads back as an untimestamped record of the
      stripped command, provided it has no `]` past its first character. */
  lemma RawLineRoundTrip(cmd: string)
    requires var c := Strip(cmd); ']' !in c || c[0] == ']'
    ensures LineRecord(cmd + "\n") == Record("", Strip(cmd))
  {
    var c := Strip(cmd);
    StripTrailing(cmd, "\n");
    assert Strip(cmd + "\n") == c;
    assert Parse(c) == Record("", c);
  }

  /** A raw hook line that contains `]` past its first character is split
      at the first one all the same: the text before it, less its first
      character, is taken for a timestamp and only the rest is searched
      (`echo [a] b` reads back as timestamp `cho [a` and command `b`). */
  lemma RawLineWithBracket(cmd: string, k: int)
    requires Stripped(cmd)
    requires FirstBracketAt(cmd, k)
    ensures LineRecord(cmd + "\n") == Record(cmd[1..k], Strip(cmd[k + 1..]))
  {
    StripTrailing(cmd, "\n");
    assert TrimLeft(cmd) == cmd;
    assert TrimRight(cmd) == cmd;
    assert Strip(cmd + "\n") == cmd;
  }
}
