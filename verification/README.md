# Terminal command monitor, modelled in Dafny

`terminal_monitor.py` is a command-line tool with four subcommands.
`start [--daemon]` records a marker file with the monitor's process id and
installs a logging hook into `~/.bashrc` and `~/.zshrc`. `stop` signals that
process and removes the hooks. `status` reports on the marker and the log.
`blast <term>` searches the command log and shows each match with optional
before/after context lines. Context lines already shown are not shown again.

This project models the program's logic over values. Files are
`Option<string>`: `None` means the file is missing. The set of live process
ids is a parameter. The regular-expression engine is an opaque predicate.
Output is modelled as blocks of line indices, not as text.

| file | module | what it models |
|---|---|---|
| `wrappers.dfy` | `Wrappers` | the `Option` type |
| `text.dfy` | `Text` | the Python string operations used: `str.isspace`, `strip`, `find` of one character, `sub in s`, `lower`, and `readlines` as `SplitLines` |
| `logformat.dfy` | `LogFormat` | the line `log_command` writes, and the split of a stored line into timestamp and command |
| `search.dfy` | `Search` | `search_command_log`: the literal test, the scan, the limit, and context rendering with the shown set |
| `search_cases.dfy` | `SearchCases` | worked searches: mixed-case terms, a four-line file, and a match printed twice |
| `hooks.dfy` | `Hooks` | the text transforms of `setup_terminal_hooks` and `cleanup_hooks` |
| `monitor.dfy` | `Monitor` | the commands as transitions of a `System` record (marker, `.bashrc`, `.zshrc`, log), with liveness given as `alive` |

## Notable behaviour of the code

The model follows the code as written, including these points.

- **Stop and the hooks.** `stop` removes the hooks only after `SIGTERM` has
  been delivered (`terminal_monitor.py:320-325`). Every error path removes
  only the marker (`terminal_monitor.py:327-333`). See `Monitor.Stop`.
- **Unreadable marker.** Only `OSError` is caught around the liveness probe
  of `start --daemon` (`terminal_monitor.py:113-120`). So a marker that
  `int()` rejects ends the command with an uncaught `ValueError`. A number
  outside the C `int` range that `os.kill` takes ends it with an uncaught
  `OverflowError`. The model reads both as `Unreadable`. See
  `Monitor.ReadMarker`, `Monitor.StartDaemon` (outcome `Crashed`) and
  `Monitor.MarkerOutOfRange`.
- **Match lines printed twice.** Context lines are checked against the
  shown set. The match line is printed without that check
  (`terminal_monitor.py:272-277`). So a match already shown as context is
  printed again. See `SearchCases.MatchPrintedAgain`. What holds is
  `Search.NoContextRepeats`: no context line is printed twice.
- **`status` changes nothing.** `show_status` reports a marker that names a
  dead process, and it leaves the marker in place
  (`terminal_monitor.py:365-367`). Only a later `start --daemon` or `stop`
  removes it. See `Monitor.Status` and `Monitor.StatusAgreesWithStart`.
- **`blast` and liveness.** `blast` only checks that the marker file exists.
  It does not check that the process is alive (`terminal_monitor.py:179`).
  See `Monitor.Blast`.
- **No guard on the foreground start.** The foreground `start` overwrites the
  marker unconditionally (`terminal_monitor.py:49-51`). This can hide a live
  daemon from `stop`. See `Monitor.ForegroundHidesDaemon`. The check that
  refuses a second monitor exists only on the daemon path
  (`terminal_monitor.py:108-117`, `Monitor.SecondDaemonRefused`).
- **A newline per cycle.** Cleanup keeps the blank line each hook begins
  with, because that line holds none of the markers. Take a start-up file
  that is empty or ends with a newline: every install/cleanup cycle adds
  one blank line at its end. See `Hooks.BashInstallThenCleanup` and
  `Monitor.StartStopCycle`, which assume such a file. In a file whose last
  line has no newline, the hook's leading newline ends that line instead,
  and that newline is what remains.
- **Untimestamped log lines.** The installed hooks `echo` the command into
  the log with no timestamp (`terminal_monitor.py:73`, `:77`). The program
  defines `log_command` but never calls it. Bash's `echo` of
  `"$command_entered"` writes the command text and a newline
  (`Monitor.HookEcho`). Such lines read back with an empty timestamp
  (`LogFormat.RawLineRoundTrip`). A command with `]` after its first
  character is split at that bracket (`LogFormat.RawLineWithBracket`).

## Model

| member | source | states |
|---|---|---|
| Text.Strip | terminal_monitor.py:216 | `strip` leaves neither end whitespace. The result is empty exactly when the line is all whitespace. It is no longer than the line, and every character comes from the line |
| Text.StripIdempotent | terminal_monitor.py:226 | stripping an already stripped text changes nothing |
| Text.Find | terminal_monitor.py:223 | `find(']')` is -1 exactly when there is no `]`. Otherwise it is an index holding `]` with no `]` before it |
| Text.FindIsFirst | terminal_monitor.py:223 | the first occurrence is the one `find` returns |
| Text.Contains | terminal_monitor.py:208 | `sub in s` holds exactly when `sub` occurs at some index of `s` |
| Text.ContainsLower | terminal_monitor.py:209-211 | an occurrence found without folding case is still found after lower-casing both sides |
| Text.SplitLines | terminal_monitor.py:192-193 | `readlines` yields non-empty lines, each newline-terminated except possibly the last, and they join back to the file content |
| Text.SplitJoin | terminal_monitor.py:192-193 | `readlines` of joined well-formed lines gives back exactly those lines |
| Text.SplitAppend | terminal_monitor.py:32-34 | appending to content that ends with a newline adds lines after the old ones and leaves the old ones unchanged |
| LogFormat.Append | terminal_monitor.py:32-34 | appending keeps the old log as a prefix and ends the file with the new entry. The file grows by exactly the entry's length, so nothing else is written |
| LogFormat.Parse | terminal_monitor.py:222-229 | with no `]`, or `]` at index 0, the timestamp is empty and the command is the whole line. Otherwise the text between index 1 and the first `]` is the timestamp, and the stripped rest is the command. A timestamp never contains `]` |
| LogFormat.ParseBracketed | terminal_monitor.py:223-226 | a line opening with `[ts]` (no `]` in `ts`) parses to `ts` and the stripped remainder |
| LogFormat.EntryRoundTrip | terminal_monitor.py:30-35 | reading back one written entry (strip, then parse) gives its timestamp and its stripped command |
| LogFormat.Written | terminal_monitor.py:30-35 | a log written entry by entry is empty exactly when there are no entries; otherwise it ends with a newline |
| LogFormat.EntryIsOneLine | terminal_monitor.py:34 | an entry whose timestamp and command hold no newline is read back as one line |
| LogFormat.WrittenLines | terminal_monitor.py:192-193 | `readlines` of a log written entry by entry gives one line per entry, in append order |
| LogFormat.LogRoundTrip | terminal_monitor.py:215-229 | appending entries and then reading the log back gives one record per entry, in order, each with its timestamp and its stripped command |
| LogFormat.RawLineRoundTrip | terminal_monitor.py:223-229 | a raw line echoed by a hook, with no `]` past its first character, reads back as an untimestamped record of the stripped command |
| LogFormat.RawLineWithBracket | terminal_monitor.py:223-226 | a raw line with `]` past its first character is split at the first one anyway |
| Search.HitOfLine | terminal_monitor.py:215-236 | a line is a match exactly when it is not blank and its parsed command (never its timestamp) passes the test |
| Search.Scan | terminal_monitor.py:214-236 | the matches are strictly increasing and are valid indices into the original lines. An index is among them exactly when its line is a match |
| Search.Limit | terminal_monitor.py:239-240 | the kept matches are a suffix of all matches. With no limit or a zero limit, all are kept. A positive limit keeps the last `min(limit, count)`. A negative limit drops the first `-limit` |
| Search.LimitKeepsLatest | terminal_monitor.py:239-240 | the kept matches stay in order, and every dropped match comes before every kept one |
| Search.VisibleLines | terminal_monitor.py:255-256 | the lines a context loop may print are exactly the non-blank ones |
| Search.ContextRun | terminal_monitor.py:253-270 | a context loop prints, in increasing order and inside its window, exactly the window lines that are not yet shown and not blank. It adds exactly those lines to the shown set |
| Search.RenderBlock | terminal_monitor.py:249-299 | one match's block holds the match itself. Its before-context is the unshown non-blank lines of `[max(0,m-before), m)`, and its after-context is those of `(m, min(len-1, m+after)]`. Both are empty when the width is not positive. The shown set grows by exactly what the block prints |
| Search.Render | terminal_monitor.py:247-301 | one block per match, in order. The blocks are laid out against everything printed before them |
| Search.BlockFresh | terminal_monitor.py:254-256 | a block prints no context line twice, and prints no context line that was already shown |
| Search.NoContextRepeats | terminal_monitor.py:247-301 | across a whole search, no context line repeats any line printed before it, whether that line was context or a match |
| Search.Blocks | terminal_monitor.py:247-249 | the rendered blocks are the given matches, one each, in order |
| Search.BlocksLayout | terminal_monitor.py:247-299 | rendering from an empty shown set lays each block out correctly and repeats no context line |
| Search.Present | terminal_monitor.py:239-303 | the matches shown are exactly what the limit keeps of all matches, one block each, and "no matches" is reported exactly when the limit keeps none. Consequences: they are a non-empty suffix of the matches. Unless the limit is negative, "no matches" is reported exactly when there are none. With no limit all matches are shown, and a positive limit bounds the block count |
| Search.Run | terminal_monitor.py:213-303 | the matches the search shows are exactly what the limit keeps of the scan, one block each, in order. "No matches" is reported exactly when the limit keeps none |
| Search.RunKeepsLatest | terminal_monitor.py:239-240 | what a search shows is the latest part of the scan. With no limit it shows the whole scan, and a positive limit bounds the number of blocks |
| Search.RunLayout | terminal_monitor.py:247-301 | every block of a search obeys the context windows, and no context line is printed twice |
| Search.PresentLayout | terminal_monitor.py:243-301 | after the limit is applied, the rendered blocks obey the context windows and repeat no context line |
| Search.SearchShowsMatches | terminal_monitor.py:235-236 | every block of a search shows a real match, in file order |
| Search.ScanSuffix | terminal_monitor.py:239-240 | any suffix of the scan consists of matches in file order |
| Search.SearchNoMatches | terminal_monitor.py:302-303 | unless the limit is negative, the search reports no matches exactly when no non-blank line's command passes the test |
| Search.SearchSelection | terminal_monitor.py:239-240 | with no limit every match is shown. Under any limit, a match left out precedes every match shown |
| SearchCases.SensitiveImpliesInsensitive | terminal_monitor.py:207-211 | a case-sensitive literal match is also a case-insensitive one |
| SearchCases.UpperTermLowerCommand | terminal_monitor.py:207-211 | `FOO` is found in `foobar` only by the case-insensitive search |
| SearchCases.ContextRunOne | terminal_monitor.py:253-256 | a one-line window prints its line exactly when the line is unshown and non-blank |
| SearchCases.FourLines | terminal_monitor.py:247-299 | with four lines of which the first and third match, and one line of context on each side, lines 0 to 3 are each printed once: 0 as match, 1 as context, 2 as match, 3 as context |
| SearchCases.MatchPrintedAgain | terminal_monitor.py:272-277 | two adjacent matches with one line of after-context print the second line twice, once as context and once as a match |
| Hooks.BashHookMentionsPath | terminal_monitor.py:73 | the Bash hook names the log path |
| Hooks.ZshHookMentionsPath | terminal_monitor.py:77 | the Zsh hook names the log path |
| Hooks.Install | terminal_monitor.py:80-87 | a missing file stays missing, and the old content is always kept as a prefix. Content that mentions the log path is unchanged; otherwise exactly the hook is appended |
| Hooks.InstallMentionsPath | terminal_monitor.py:85-87 | after installing, an existing file mentions the log path |
| Hooks.InstallIdempotent | terminal_monitor.py:85-87 | installing twice is installing once |
| Hooks.KeepLineTwoMarkers | terminal_monitor.py:100 | the `trap log_command DEBUG` test adds nothing to the `log_command` test |
| Hooks.Kept | terminal_monitor.py:99-101 | the kept lines are exactly the input lines that have none of the three markers |
| Hooks.KeptAppend | terminal_monitor.py:99-101 | filtering distributes over concatenation, so the kept lines keep their order |
| Hooks.KeptIdempotent | terminal_monitor.py:99-101 | filtering twice is filtering once |
| Hooks.KeptWellFormed | terminal_monitor.py:96-101 | the kept lines of a file are again a file's lines |
| Hooks.Cleanup | terminal_monitor.py:91-101 | a missing file stays missing. An existing file is rewritten so that reading it back gives exactly its kept lines, and it never grows |
| Hooks.CleanupIdempotent | terminal_monitor.py:91-101 | cleaning twice is cleaning once |
| Hooks.CleanupAppend | terminal_monitor.py:96-101 | cleaning whole lines followed by more lines cleans the two parts separately |
| Hooks.BashLinesKept | terminal_monitor.py:100 | of the Bash hook's lines, only its opening blank line survives cleanup |
| Hooks.ZshLinesShape | terminal_monitor.py:77 | the Zsh hook reads as two lines, and only its opening blank line survives cleanup |
| Hooks.BashInstallThenCleanup | terminal_monitor.py:80-101 | installing the Bash hook and then cleaning gives the cleaned original plus one blank line |
| Hooks.ZshInstallThenCleanup | terminal_monitor.py:80-101 | the same for the Zsh hook |
| Monitor.SetupHooks | terminal_monitor.py:69-89 | each start-up file gets its own hook installed. Existing files then mention the log path. The marker and the log are untouched |
| Monitor.CleanupHooks | terminal_monitor.py:91-101 | both start-up files are cleaned and no file is created or deleted. The marker and the log are untouched |
| Monitor.ReadMarker | terminal_monitor.py:115 | the marker is read as a process id exactly when `int()` accepts it and it fits the C `int` range `os.kill` accepts, and then it is that number |
| Monitor.StartForeground | terminal_monitor.py:37-54 | the marker names the new process whatever it held before. Each start-up file gets exactly its own hook installed: a missing file stays missing, a file that mentions the log path is unchanged, and any other file gets the hook appended. So existing files keep their content as a prefix and then mention the log path. The log is untouched |
| Monitor.StartDaemon | terminal_monitor.py:103-161 | refused, with nothing changed, exactly when the marker names a live process. Crashes, with nothing changed, exactly when the marker is unreadable (not a number, or out of `os.kill`'s range). A dead process's marker is removed first. A failed fork leaves no marker. A successful start records the daemon and installs the hooks |
| Monitor.Launch | terminal_monitor.py:122-161 | after the check, a fork failure changes nothing. A fork success records the daemon's id in the marker, installs each start-up file's own hook and leaves the log untouched |
| Monitor.Stop | terminal_monitor.py:309-333 | the marker is always gone afterwards. "Not running" is reported exactly when there was no marker, and "stopped" exactly when the marker named a live process. Only in that case are the hooks cleaned; otherwise they are left as they were |
| Monitor.Status | terminal_monitor.py:335-369 | no monitor exactly when there is no marker. An error exactly when the marker is unreadable. Running exactly when the marker names a live process, and then the log's line count is given exactly when the log exists. Otherwise the recorded process is reported dead |
| Monitor.LogCommand | terminal_monitor.py:30-35 | the log becomes the old log (or nothing, if missing) followed by exactly the one entry for this timestamp and command. Nothing else changes |
| Monitor.HookEcho | terminal_monitor.py:73 | the Bash hook's `echo` appends exactly the command text and one newline to the log, creating it if missing. Nothing else changes |
| Monitor.MakeQuery | terminal_monitor.py:421-435 | `-C` overrides both context widths. A literal term is tested case-sensitively unless `-i` is given. A regular expression is the given compiled pattern. The limit is passed through |
| Monitor.Blast | terminal_monitor.py:178-193 | `blast` fails exactly when the marker file is missing, or else when the log is missing. Otherwise it searches the log's lines |
| Monitor.StopIdempotent | terminal_monitor.py:311-313 | a second `stop` finds nothing to stop and changes nothing. `status` then reports no monitor |
| Monitor.MarkerOutOfRange | terminal_monitor.py:113-120 | a marker holding a number past the C `int` range makes `start --daemon` die with nothing changed, `status` report an error, and `stop` only remove the marker |
| Monitor.StatusAgreesWithStart | terminal_monitor.py:109-120 | `status` says running exactly when `start --daemon` is refused, and reports an error exactly when it crashes. A dead process reported by `status` is one the start reclaims |
| Monitor.StatusAgreesWithStop | terminal_monitor.py:315-321 | `status` says running exactly when `stop` delivers its signal, and to the same process |
| Monitor.StaleMarkerReclaimed | terminal_monitor.py:118-120 | a marker naming a dead process does not block a daemon start, and it ends up naming the new daemon |
| Monitor.SecondDaemonRefused | terminal_monitor.py:109-117 | once a daemon has started and is alive, a second daemon start is refused and changes nothing |
| Monitor.ForegroundHidesDaemon | terminal_monitor.py:49-51 | a foreground start over a live daemon takes the marker, so `stop` signals the new process, not the daemon |
| Monitor.StartStopCycle | terminal_monitor.py:309-325 | starting a daemon and then stopping it leaves no marker, the same log, and each start-up file cleaned plus one blank line |
| Monitor.StatusCountsEntries | terminal_monitor.py:360-364 | for a log written entry by entry, `status` counts exactly the number of entries |

## Left out

- File I/O is modelled as file contents held in a `System` value:
  opening, reading, appending, removing and `os.path.exists`. Failures of
  those calls (permissions, a full disk) are not modelled, and neither are
  the generic `except Exception` handlers that would report them.
- `os.kill` is replaced by membership in the `alive` set. The special
  meanings of process ids 0 and below (process groups) and permission
  errors are not modelled.
- Daemonization: both forks, `setsid`, `chdir`, `umask` and the stream
  redirection. A start's `fork` parameter is the daemon's id, or `None` when
  either fork fails. The id printed by the first parent (the first child's)
  differs from the one recorded (the grandchild's); only the recorded one is
  modelled.
- The idle `time.sleep` loop of `start_monitoring`, and the cleanup its
  `KeyboardInterrupt` handler runs (signal delivery and concurrency).
- `datetime.now().strftime`: the timestamp is a parameter.
- Regular expressions: the compiled pattern is an opaque `string -> bool`.
  The invalid-pattern exit is left out because the engine is foreign code.
- Printing: ANSI colours, the `show_time` choice, header and separator lines.
  Output is modelled as blocks of indices instead.
- `show_status`'s byte/KB/MB size text, because it uses floating point.
- `argparse` and `main`'s help paths, `ensure_required_packages` (pip) and
  `create_monitor_dir`.
- Text.Lower: folds only `A`–`Z`, whereas Python's `str.lower` also folds
  non-ASCII letters.
- Text.SplitLines: splits on `\n` only. Text-mode universal newlines, which
  turn `\r` and `\r\n` into `\n` on reading, are not modelled.
- Text.Strip: uses Python's `str.isspace` set of whitespace characters as
  listed in `IsSpace`. Any other Unicode space the Python database adds is
  not covered.
- Monitor.Status: reports the line count but not the size string.
- Monitor.StartDaemon: treated as one atomic step from the check of the
  marker to the new daemon's marker being written. In the program the
  invoking process prints the child's id and exits (`terminal_monitor.py:124-128`)
  before the grandchild writes the marker (`terminal_monitor.py:50-51`).
  A second `start --daemon` in that window finds no marker and starts a
  second daemon, because the check and the write are not atomic.
  `Monitor.SecondDaemonRefused` holds only for starts that do not overlap.
- Monitor.HookEcho: models only the Bash hook's `echo "$command_entered"`.
  It does not model a command text that Bash's `echo` takes as an option
  (`-n`, `-e`, `-E`), or the `xpg_echo` shell option. The Zsh hook's
  builtin `echo` (`terminal_monitor.py:77`) expands backslash escapes, and
  `\c` also drops the newline. So a Zsh-logged line can differ from the
  command text; that escape processing is not modelled.
- Monitor.Stop: a failure of `cleanup_hooks` after a delivered signal (which
  would also land in the error path) is not modelled.
