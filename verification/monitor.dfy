/** The monitor's commands over the files it touches: the marker file
    holding the daemon's process id, the two shell start-up files and the
    command log. Which process ids are alive is a parameter (`alive`), the
    set of ids a signal can reach; forking and the daemon's idle loop are
    not modelled beyond the id the new daemon gets. */
module Monitor {
  import opened Wrappers
  import opened Text
  import opened LogFormat
  import opened Hooks
  import opened Search

  /** The process ids `os.kill` accepts: the range of a C `int`. */
  type ProcessId = p: int | -0x8000_0000 <= p < 0x8000_0000

  /** The marker file's content as the commands read it: a process id, or
      `Unreadable` when `int()` rejects the text or the number lies outside
      the range `os.kill` accepts (it raises `OverflowError`, which no
      command treats as `OSError`). */
  datatype Marker = Pid(pid: ProcessId) | Unreadable

  /** Reads the marker from the result of `int(text.strip())`, `None` when
      that raises `ValueError`. */
  function ReadMarker(n: Option<int>): (m: Marker)
    ensures m.Pid? <==> n.Some? && -0x8000_0000 <= n.value < 0x8000_0000
    ensures m.Pid? ==> m.pid == n.value
  {
    if n.Some? && -0x8000_0000 <= n.value < 0x8000_0000 then Pid(n.value) else Unreadable
  }

  /** The files the monitor reads and writes; `None` is a missing file. */
  datatype System = System(
    marker: Option<Marker>,
    bashrc: Option<string>,
    zshrc: Option<string>,
    log: Option<string>)

  /** Whether the marker names a process that is alive. */
  predicate Live(s: System, alive: set<int>) {
    s.marker.Some? && s.marker.value.Pid? && s.marker.value.pid in alive
  }

  /** `setup_terminal_hooks`: the Bash and the Zsh hook, each installed
      into its start-up file unless that file is missing or already
      mentions the log path. */
  function SetupHooks(s: System, logPath: string): (r: System)
    ensures r.marker == s.marker && r.log == s.log
    ensures r.bashrc == Install(s.bashrc, BashHook(logPath), logPath)
    ensures r.zshrc == Install(s.zshrc, ZshHook(logPath), logPath)
    ensures r.bashrc.Some? ==> Contains(r.bashrc.value, logPath)
    ensures r.zshrc.Some? ==> Contains(r.zshrc.value, logPath)
  {
    BashHookMentionsPath(logPath);
    ZshHookMentionsPath(logPath);
    InstallMentionsPath(s.bashrc, BashHook(logPath), logPath);
    InstallMentionsPath(s.zshrc, ZshHook(logPath), logPath);
    s.(bashrc := Install(s.bashrc, BashHook(logPath), logPath),
       zshrc := Install(s.zshrc, ZshHook(logPath), logPath))
  }

  /** `cleanup_hooks`: both start-up files cleaned. */
  function CleanupHooks(s: System): (r: System)
    ensures r.marker == s.marker && r.log == s.log
    ensures r.bashrc.None? <==> s.bashrc.None?
    ensures r.zshrc.None? <==> s.zshrc.None?
    ensures r.bashrc.Some? ==> SplitLines(r.bashrc.value) == Kept(SplitLines(s.bashrc.value))
    ensures r.zshrc.Some? ==> SplitLines(r.zshrc.value) == Kept(SplitLines(s.zshrc.value))
  {
    s.(bashrc := Cleanup(s.bashrc), zshrc := Cleanup(s.zshrc))
  }

  /** `start_monitoring` up to its idle loop, run by process `pid`: the
      marker is overwritten with `pid` whatever it held, even the id of a
      live daemon, and the hooks are installed. */
  function StartForeground(s: System, logPath: string, pid: ProcessId): (r: System)
    ensures r.marker == Some(Pid(pid))
    ensures r.log == s.log
    ensures r.bashrc.None? <==> s.bashrc.None?
    ensures r.zshrc.None? <==> s.zshrc.None?
    ensures r.bashrc.Some? ==> s.bashrc.value <= r.bashrc.value && Contains(r.bashrc.value, logPath)
    ensures r.zshrc.Some? ==> s.zshrc.value <= r.zshrc.value && Contains(r.zshrc.value, logPath)
    ensures r.bashrc == Install(s.bashrc, BashHook(logPath), logPath)
    ensures r.zshrc == Install(s.zshrc, ZshHook(logPath), logPath)
  {
    SetupHooks(s.(marker := Some(Pid(pid))), logPath)
  }

  /** How `start --daemon` ends. */
  datatype DaemonOutcome =
    | AlreadyRunning(running: ProcessId)  // the marker names a live process
    | Started(daemon: ProcessId)          // a daemon with this id took over
    | ForkFailed                          // either fork failed; the invoking process exits 1 only when the first one does
    | Crashed                             // unreadable marker: uncaught `ValueError` or `OverflowError`

  /** `run_as_daemon`. `fork` is the id of the detached daemon, or `None`
      when a fork fails. A marker naming a dead process is removed first;
      only `OSError` is caught around the liveness probe, so an unreadable
      marker ends the command with nothing changed. */
  function StartDaemon(s: System, logPath: string, alive: set<int>, fork: Option<ProcessId>): (r: (DaemonOutcome, System))
    ensures r.1.log == s.log
    ensures r.0.AlreadyRunning? <==> Live(s, alive)
    ensures r.0.AlreadyRunning? ==> r.0.running == s.marker.value.pid && r.1 == s
    ensures r.0.Crashed? <==> s.marker == Some(Unreadable)
    ensures r.0.Crashed? ==> r.1 == s
    ensures r.0.ForkFailed? ==> r.1 == s.(marker := None)
    ensures r.0.Started? ==> fork == Some(r.0.daemon) && r.1 == StartForeground(s.(marker := None), logPath, r.0.daemon)
    ensures !r.0.AlreadyRunning? && !r.0.Crashed? ==> (r.0.Started? <==> fork.Some?)
  {
    match s.marker
    case Some(Unreadable) => (Crashed, s)
    case Some(Pid(p)) =>
      if p in alive then (AlreadyRunning(p), s)
      else Launch(s.(marker := None), logPath, fork)
    case None => Launch(s, logPath, fork)
  }

  /** The part of `run_as_daemon` after the check, starting with no marker. */
  function Launch(s: System, logPath: string, fork: Option<ProcessId>): (r: (DaemonOutcome, System))
    requires s.marker.None?
    ensures r.0.Started? || r.0.ForkFailed?
    ensures r.0.ForkFailed? <==> fork.None?
    ensures r.0.ForkFailed? ==> r.1 == s
    ensures r.0.Started? ==> r.0.daemon == fork.value && r.1.marker == Some(Pid(fork.value))
    ensures r.0.Started? ==> (r.1.log == s.log
      && r.1.bashrc == Install(s.bashrc, BashHook(logPath), logPath)
      && r.1.zshrc == Install(s.zshrc, ZshHook(logPath), logPath))
  {
    match fork
    case None => (ForkFailed, s)
    case Some(d) => (Started(d), StartForeground(s, logPath, d))
  }

  /** How `stop` ends. */
  datatype StopOutcome =
    | NotRunning         // no marker file
    | Stopped(pid: ProcessId)  // SIGTERM delivered, hooks removed
    | StopFailed         // unreadable marker or undeliverable signal

  /** `stop_monitor`. Only when the signal is delivered are the hooks
      removed; on every error path the marker alone is removed. */
  function Stop(s: System, alive: set<int>): (r: (StopOutcome, System))
    ensures r.1.marker.None?
    ensures r.1.log == s.log
    ensures r.0.NotRunning? <==> s.marker.None?
    ensures r.0.Stopped? <==> Live(s, alive)
    ensures r.0.Stopped? ==> r.0.pid == s.marker.value.pid && r.1 == CleanupHooks(s).(marker := None)
    ensures !r.0.Stopped? ==> r.1.bashrc == s.bashrc && r.1.zshrc == s.zshrc
  {
    match s.marker
    case None => (NotRunning, s)
    case Some(Unreadable) => (StopFailed, s.(marker := None))
    case Some(Pid(p)) =>
      if p in alive then (Stopped(p), CleanupHooks(s).(marker := None))
      else (StopFailed, s.(marker := None))
  }

  /** What `status` reports; it changes no file. */
  datatype Report =
    | Absent                                  // no marker file
    | Running(pid: ProcessId, lines: Option<nat>)   // live; the log's line count if it exists
    | Died(pid: ProcessId)                          // the marker names a dead process
    | StatusError                                  // unreadable marker, caught by the outer handler

  /** `show_status`. The line count is the number of lines iterating over
      the log file yields. */
  function Status(s: System, alive: set<int>): (r: Report)
    ensures r.Absent? <==> s.marker.None?
    ensures r.StatusError? <==> s.marker == Some(Unreadable)
    ensures r.Running? <==> Live(s, alive)
    ensures r.Running? ==> r.pid == s.marker.value.pid
    ensures r.Running? ==> (r.lines.Some? <==> s.log.Some?)
    ensures r.Running? && s.log.Some? ==> r.lines.value == |SplitLines(s.log.value)|
    ensures r.Died? ==> s.marker == Some(Pid(r.pid)) && r.pid !in alive
  {
    match s.marker
    case None => Absent
    case Some(Unreadable) => StatusError
    case Some(Pid(p)) =>
      if p in alive then Running(p, if s.log.Some? then Some(|SplitLines(s.log.value)|) else None)
      else Died(p)
  }

  /** `log_command`: one timestamped entry appended to the log. */
  function LogCommand(s: System, ts: string, cmd: string): (r: System)
    ensures r.marker == s.marker && r.bashrc == s.bashrc && r.zshrc == s.zshrc
    ensures r.log == Some(Append(s.log, ts, cmd))
    ensures s.log.Some? ==> s.log.value <= r.log.value
    ensures var e := Entry(ts, cmd); |e| <= |r.log.value| && r.log.value[|r.log.value| - |e|..] == e
  {
    s.(log := Some(Append(s.log, ts, cmd)))
  }

  /** What the installed Bash hook does before each command: `echo` the
      command text (`$BASH_COMMAND`) into the log, with a newline and no
      timestamp. */
  function HookEcho(s: System, cmd: string): (r: System)
    ensures r.marker == s.marker && r.bashrc == s.bashrc && r.zshrc == s.zshrc
    ensures r.log.Some? && (s.log.Some? ==> s.log.value <= r.log.value)
    ensures |r.log.value| == (if s.log.Some? then |s.log.value| else 0) + |cmd| + 1
    ensures r.log.value[|r.log.value| - |cmd| - 1..] == cmd + "\n"
  {
    s.(log := Some((if s.log.Some? then s.log.value else "") + cmd + "\n"))
  }

  /** How `blast` ends. */
  datatype BlastOutcome =
    | NoMonitor            // no marker file, exit status 1
    | LogMissing           // no log file, exit status 1
    | Searched(result: Outcome)

  /** The `blast` options as `main` turns them into a query: `-C` sets both
      context widths; a regular expression arrives as its compiled
      `search`, with case-insensitivity already applied. */
  function MakeQuery(term: string, caseInsensitive: bool, pattern: Option<string -> bool>,
                     limit: Option<int>, before: int, after: int, context: Option<int>): (q: Query)
    ensures q.limit == limit
    ensures context.Some? ==> q.before == context.value && q.after == context.value
    ensures context.None? ==> q.before == before && q.after == after
    ensures pattern.None? ==> q.matcher == Literal(term, !caseInsensitive)
    ensures pattern.Some? ==> q.matcher == Pattern(pattern.value)
  {
    var m := if pattern.Some? then Pattern(pattern.value) else Literal(term, !caseInsensitive);
    if context.Some? then Query(m, limit, context.value, context.value)
    else Query(m, limit, before, after)
  }

  /** `search_command_log`: it only checks that a marker file exists, not
      that the process it names is alive, then searches the log's lines. */
  function Blast(s: System, q: Query): (r: BlastOutcome)
    ensures r.NoMonitor? <==> s.marker.None?
    ensures r.LogMissing? <==> s.marker.Some? && s.log.None?
    ensures r.Searched? ==> r.result == Run(Records(SplitLines(s.log.value)), q)
  {
    if s.marker.None? then NoMonitor
    else if s.log.None? then LogMissing
    else Searched(Run(Records(SplitLines(s.log.value)), q))
  }

  /** A marker holding a number past the C `int` range is read as
      `Unreadable`: `start --daemon` dies with nothing changed, `status`
      reports an error, and `stop` only removes the marker. */
  lemma MarkerOutOfRange(s: System, logPath: string, alive: set<int>, fork: Option<ProcessId>, n: int)
    requires n >= 0x8000_0000 && s.marker == Some(ReadMarker(Some(n)))
    ensures StartDaemon(s, logPath, alive, fork) == (Crashed, s)
    ensures Status(s, alive) == StatusError
    ensures Stop(s, alive) == (StopFailed, s.(marker := None))
  {
  }

  /** `stop` always leaves no marker, so a second `stop` finds nothing to
      stop and changes nothing, whichever processes are alive by then. */
  lemma StopIdempotent(s: System, alive: set<int>, alive': set<int>)
    ensures var t := Stop(s, alive).1; Stop(t, alive') == (NotRunning, t)
    ensures Status(Stop(s, alive).1, alive') == Absent
  {
  }

  /** `status` and `start --daemon` read the marker the same way: status
      reports a running daemon exactly when a daemon start is refused, an
      error exactly when the start crashes, and a dead process exactly when
      the start reclaims the marker. */
  lemma StatusAgreesWithStart(s: System, logPath: string, alive: set<int>, fork: Option<ProcessId>)
    ensures Status(s, alive).Running? <==> StartDaemon(s, logPath, alive, fork).0.AlreadyRunning?
    ensures Status(s, alive).StatusError? <==> StartDaemon(s, logPath, alive, fork).0.Crashed?
    ensures Status(s, alive).Died? ==> StartDaemon(s, logPath, alive, fork) == Launch(s.(marker := None), logPath, fork)
  {
  }

  /** `status` and `stop` agree on which process is running. */
  lemma StatusAgreesWithStop(s: System, alive: set<int>)
    ensures Status(s, alive).Running? <==> Stop(s, alive).0.Stopped?
    ensures Status(s, alive).Running? ==> Stop(s, alive).0.pid == Status(s, alive).pid
  {
  }

  /** A marker naming a dead process is reclaimed: the daemon start goes
      ahead and the marker ends up naming the new daemon. */
  lemma StaleMarkerReclaimed(s: System, logPath: string, alive: set<int>, p: ProcessId, d: ProcessId)
    requires s.marker == Some(Pid(p)) && p !in alive
    ensures StartDaemon(s, logPath, alive, Some(d)).0 == Started(d)
    ensures StartDaemon(s, logPath, alive, Some(d)).1.marker == Some(Pid(d))
  {
  }

  /** The guard on the daemon path: once a daemon has started and stays
      alive, a second `start --daemon` is refused and changes nothing. */
  lemma SecondDaemonRefused(s: System, logPath: string, alive: set<int>, d: ProcessId, fork: Option<ProcessId>)
    requires StartDaemon(s, logPath, alive, Some(d)).0.Started?
    requires d in alive
    ensures var t := StartDaemon(s, logPath, alive, Some(d)).1;
      StartDaemon(t, logPath, alive, fork) == (AlreadyRunning(d), t)
  {
    var t := StartDaemon(s, logPath, alive, Some(d)).1;
    assert t.marker == Some(Pid(d));
    assert Live(t, alive);
  }

  /** The foreground path has no guard: started while a daemon `q` is
      alive, it takes over the marker, so `stop` then signals the new
      process and never `q`. */
  lemma ForegroundHidesDaemon(s: System, logPath: string, alive: set<int>, pid: ProcessId, q: ProcessId)
    requires s.marker == Some(Pid(q)) && q in alive && pid in alive && pid != q
    ensures Stop(StartForeground(s, logPath, pid), alive).0 == Stopped(pid)
  {
    var t := StartForeground(s, logPath, pid);
    assert t.marker == Some(Pid(pid));
  }

  /** A full cycle from a clean state: `start --daemon` then `stop` with the
      daemon alive leaves each start-up file as cleaning it would, plus the
      blank line the hook opened with. */
  lemma StartStopCycle(s: System, logPath: string, alive: set<int>, d: ProcessId)
    requires s.marker.None? && s.bashrc.Some? && s.zshrc.Some?
    requires '\n' !in logPath
    requires s.bashrc.value == [] || EndsWithNewline(s.bashrc.value)
    requires s.zshrc.value == [] || EndsWithNewline(s.zshrc.value)
    requires !Contains(s.bashrc.value, logPath) && !Contains(s.zshrc.value, logPath)
    requires d in alive
    ensures var t := Stop(StartDaemon(s, logPath, alive, Some(d)).1, alive);
      && t.0 == Stopped(d)
      && t.1.marker.None?
      && t.1.log == s.log
      && t.1.bashrc == Some(Cleanup(s.bashrc).value + "\n")
      && t.1.zshrc == Some(Cleanup(s.zshrc).value + "\n")
  {
    var started := StartDaemon(s, logPath, alive, Some(d)).1;
    assert started == StartForeground(s, logPath, d);
    assert started.bashrc == Install(s.bashrc, BashHook(logPath), logPath);
    assert started.zshrc == Install(s.zshrc, ZshHook(logPath), logPath);
    BashInstallThenCleanup(s.bashrc.value, logPath);
    ZshInstallThenCleanup(s.zshrc.value, logPath);
  }

  /** The count `status` reports for a log written entry by entry is the
      number of entries. */
  lemma StatusCountsEntries(s: System, alive: set<int>, entries: seq<Record>)
    requires Live(s, alive)
    requires forall k :: 0 <= k < |entries| ==> Writable(entries[k])
    requires s.log == Some(Written(entries))
    ensures Status(s, alive) == Running(s.marker.value.pid, Some(|entries|))
  {
    LogRoundTrip(entries);
  }
}
