/** The upload-process supervisor of the control panel as a state machine: each
    operation of `GitHubAutoUploadMain` that starts, stops, adopts or watches the
    worker is one atomic step from one state to the next. */
module Supervision {
  import opened Wrappers
  import opened Strings
  import opened PidText
  import opened Processes

  /** `is_upload_running`, the `upload_process` handle (a PID, or none), the content
      of `upload_process.pid` (absent, or its text) and the operating system. */
  datatype Sup = Sup(running: bool, handle: Option<int>, pidFile: Option<string>, os: Os)

  /** The PID file is on disk exactly while the flag is up, and then it names the
      process the handle refers to. */
  predicate Consistent(s: Sup) {
    && (s.pidFile.Some? <==> s.running)
    && (s.running ==> s.handle.Some? && Parse(s.pidFile.value) == s.handle)
  }

  /** The handle exists and `poll()` reports the process as not yet exited. */
  predicate HandleLive(s: Sup) {
    s.handle.Some? && Alive(s.os, s.handle.value)
  }

  /** The answer of `subprocess.Popen([sys.executable, 'main_upload.py'])`: a new
      process, FileNotFoundError, or any other exception. `Popen` raises
      FileNotFoundError only when the interpreter itself cannot be found; a missing
      `main_upload.py` still yields a `Launched` interpreter, which then exits on its
      own (a `ProcessExits` event of a run). */
  datatype Launch =
    | Launched(pid: int, name: string, parent: int, ignoresTerm: bool)
    | NotFound
    | LaunchFailed

  /** The operating system hands a new process a PID that no live process holds. */
  predicate FreshPid(s: Sup, launch: Launch) {
    launch.Launched? ==> !Alive(s.os, launch.pid)
  }

  /** The message box `start_upload` ends with. */
  datatype StartOutcome = Started | AlreadyRunning | NotFoundError | StartError

  // ---------------------------------------------------------------------------
  // start_upload

  /** `start_upload`. `writeFails` says whether writing the PID file raised. */
  function StartStep(s: Sup, launch: Launch, writeFails: bool): (Sup, StartOutcome)
    requires !s.running ==> FreshPid(s, launch)
  {
    if s.running then (s, AlreadyRunning)
    else
      match launch
      case NotFound => (s, NotFoundError)
      case LaunchFailed => (s.(running := false), StartError)
      case Launched(pid, name, parent, ignores) =>
        var os := Spawn(s.os, pid, Proc(name, true, parent, ignores));
        if writeFails then (s.(handle := Some(pid), os := os, running := false), StartError)
        else (s.(handle := Some(pid), pidFile := Some(Show(pid)), os := os, running := true), Started)
  }

  /** Starting while running only warns: no process, no file write, no change. */
  lemma StartWhileRunning(s: Sup, launch: Launch, writeFails: bool)
    requires s.running
    ensures StartStep(s, launch, writeFails) == (s, AlreadyRunning)
  {
  }

  /** A successful start records exactly the new process: the flag is up, the handle
      and the PID file both name it, and it is alive. Nothing is signalled. */
  lemma StartRecordsPid(s: Sup, launch: Launch, writeFails: bool)
    requires !s.running ==> FreshPid(s, launch)
    requires StartStep(s, launch, writeFails).1 == Started
    ensures !s.running && launch.Launched? && !writeFails
    ensures var r := StartStep(s, launch, writeFails).0;
      && r.running && r.handle == Some(launch.pid)
      && r.pidFile.Some? && Parse(r.pidFile.value) == Some(launch.pid)
      && Alive(r.os, launch.pid) && r.os.signals == s.os.signals
    ensures var r := StartStep(s, launch, writeFails).0;
      forall q :: q != launch.pid ==>
        && (q in r.os.procs <==> q in s.os.procs)
        && (q in s.os.procs ==> r.os.procs[q] == s.os.procs[q])
  {
    ParseShow(launch.pid);
  }

  /** A start that does not succeed leaves the flag down and the PID file as it was;
      only a failure after the spawn leaves the new process in the handle. */
  lemma StartFailureKeepsFlagDown(s: Sup, launch: Launch, writeFails: bool)
    requires !s.running
    requires FreshPid(s, launch)
    requires StartStep(s, launch, writeFails).1 != Started
    ensures var r := StartStep(s, launch, writeFails).0;
      && !r.running && r.pidFile == s.pidFile && r.os.signals == s.os.signals
      && (r.handle != s.handle ==> launch.Launched? && writeFails && r.handle == Some(launch.pid))
  {
  }

  lemma StartKeepsConsistent(s: Sup, launch: Launch, writeFails: bool)
    requires Consistent(s)
    requires !s.running ==> FreshPid(s, launch)
    ensures Consistent(StartStep(s, launch, writeFails).0)
  {
    if launch.Launched? { ParseShow(launch.pid); }
  }

  // ---------------------------------------------------------------------------
  // stop_upload

  /** `stop_upload`: if the handle's process is still running, shut its tree down;
      then remove the PID file and clear the handle and the flag. `removeFails` says
      whether `os.remove` raised; the outer handler then only reports the error, so
      the file, the handle and the flag stay as they were, though the signals went out. */
  function StopStep(s: Sup, removeFails: bool): Sup {
    var os := if HandleLive(s) then TreeShutdown(s.os, s.handle.value) else s.os;
    if s.pidFile.Some? && removeFails then s.(os := os)
    else Sup(false, None, None, os)
  }

  /** After a stop whose removal succeeds (or that found no file), the file is gone,
      the handle is none and the flag is down; a failed removal changes nothing but
      the processes. Either way a consistent state stays consistent. */
  lemma StopSettles(s: Sup, removeFails: bool)
    ensures var r := StopStep(s, removeFails);
      !removeFails || s.pidFile.None? ==>
        !r.running && r.handle.None? && r.pidFile.None? && Consistent(r)
    ensures var r := StopStep(s, removeFails);
      removeFails && s.pidFile.Some? ==> r == s.(os := r.os)
    ensures Consistent(s) ==> Consistent(StopStep(s, removeFails))
  {
  }

  /** However the first stop ended, the handle names no live process. */
  lemma StopLeavesNoLiveHandle(s: Sup, removeFails: bool)
    ensures !HandleLive(StopStep(s, removeFails))
  {
    if HandleLive(s) {
      ShutdownEndsTree(s.os, s.handle.value, s.handle.value);
    }
  }

  /** A second stop sends no further signal; after a stop that removed the file it
      changes nothing at all, and after one whose removal failed a retry that succeeds
      settles in the same state. */
  lemma StopIdempotent(s: Sup, first: bool, second: bool)
    ensures StopStep(StopStep(s, first), second).os == StopStep(s, first).os
    ensures StopStep(StopStep(s, false), second) == StopStep(s, false)
    ensures StopStep(StopStep(s, first), false) == StopStep(s, false)
  {
    StopLeavesNoLiveHandle(s, first);
  }

  /** Nothing is signalled unless a handle exists and its process has not exited. */
  lemma StopWithoutLiveHandle(s: Sup, removeFails: bool)
    requires !HandleLive(s)
    ensures StopStep(s, removeFails).os == s.os
  {
  }

  /** With a live handle the signals go out in this order: a terminate to every child
      of the snapshot taken before any signal, then a terminate to the parent, then
      a kill to each member of the tree that is still alive, which are exactly those
      that ignore a terminate request. */
  lemma StopSignalOrder(s: Sup, removeFails: bool)
    requires HandleLive(s)
    ensures var h := s.handle.value;
      StopStep(s, removeFails).os.signals ==
        s.os.signals + Terms(Snapshot(s.os, h)) + [Term(h)] + Kills(Survivors(s.os, h))
    ensures var h := s.handle.value;
      forall q :: q in Survivors(s.os, h) <==>
        (q == h || q in Descendants(s.os.procs, h)) && s.os.procs[q].ignoresTerm
  {
    var h := s.handle.value;
    ShutdownLog(s.os, h);
    forall q ensures q in Survivors(s.os, h) <==> (q == h || q in Descendants(s.os.procs, h)) && s.os.procs[q].ignoresTerm {
      SurvivorsIgnoredTerm(s.os, h, q);
    }
  }

  /** After a stop with a live handle, neither the worker nor any of its descendants
      is alive. */
  lemma StopEndsTree(s: Sup, removeFails: bool, q: int)
    requires HandleLive(s)
    requires q == s.handle.value || q in Descendants(s.os.procs, s.handle.value)
    ensures !Alive(StopStep(s, removeFails).os, q)
  {
    ShutdownEndsTree(s.os, s.handle.value, q);
  }

  /** A process outside the worker's tree is neither changed nor signalled by a stop. */
  lemma StopSparesOthers(s: Sup, removeFails: bool, q: int)
    requires s.handle.Some? ==> q != s.handle.value && q !in Descendants(s.os.procs, s.handle.value)
    ensures var r := StopStep(s, removeFails).os;
      && (q in r.procs <==> q in s.os.procs)
      && (q in s.os.procs ==> r.procs[q] == s.os.procs[q])
      && forall i :: |s.os.signals| <= i < |r.signals| ==> r.signals[i].Target() != q
  {
    if HandleLive(s) {
      ShutdownSparesOthers(s.os, s.handle.value, q);
    }
  }

  // ---------------------------------------------------------------------------
  // check_upload_process

  /** `'python' in process.name().lower()`. */
  predicate IsPython(name: string) {
    Contains(Lower(name), "python")
  }

  /** `check_upload_process` as written. `popenRaises` says whether building the
      handle with `subprocess.Popen([], shell=False)` raised; when it does, the flag
      that was just raised is lowered again by the handler and the file stays.
      `removeFails` says whether removing a stale file raised; the handler then
      lowers the flag and the file stays. */
  function CheckStep(s: Sup, popenRaises: bool, removeFails: bool): Sup {
    match s.pidFile
    case None => s
    case Some(text) =>
      match Parse(text)
      case None => s.(running := false)
      case Some(pid) =>
        if !Alive(s.os, pid) || !IsPython(s.os.procs[pid].name) then
          if removeFails then s.(running := false) else s.(pidFile := None)
        else if popenRaises then s.(running := false)
        else s.(running := true, handle := Some(pid))
  }

  /** The check never signals anything and never changes a process. */
  lemma CheckNeverSignals(s: Sup, popenRaises: bool, removeFails: bool)
    ensures CheckStep(s, popenRaises, removeFails).os == s.os
  {
  }

  /** The check adopts only a live process whose name contains "python" in any
      case, and only the one the file names. */
  lemma CheckAdoptsOnlyLivePython(s: Sup, popenRaises: bool, removeFails: bool)
    requires CheckStep(s, popenRaises, removeFails).handle != s.handle
    ensures s.pidFile.Some? && Parse(s.pidFile.value).Some?
    ensures var pid := Parse(s.pidFile.value).value;
      && CheckStep(s, popenRaises, removeFails).handle == Some(pid)
      && Alive(s.os, pid) && IsPython(s.os.procs[pid].name)
      && CheckStep(s, popenRaises, removeFails).running
  {
  }

  /** Conversely, when the file names a live Python process and the handle can be
      built, the check adopts that process and keeps the file. */
  lemma CheckAdoptsLivePython(s: Sup, removeFails: bool)
    requires s.pidFile.Some? && Parse(s.pidFile.value).Some?
    requires var pid := Parse(s.pidFile.value).value;
      Alive(s.os, pid) && IsPython(s.os.procs[pid].name)
    ensures var r := CheckStep(s, false, removeFails);
      r.running && r.handle == Parse(s.pidFile.value) && r.pidFile == s.pidFile
  {
  }

  /** A file naming a dead or an unrelated process is removed and the flag is left
      as it was; when the removal fails the file stays and the flag goes down. */
  lemma CheckDiscardsStale(s: Sup, popenRaises: bool, removeFails: bool)
    requires s.pidFile.Some? && Parse(s.pidFile.value).Some?
    requires var pid := Parse(s.pidFile.value).value;
      !Alive(s.os, pid) || !IsPython(s.os.procs[pid].name)
    ensures !removeFails ==> CheckStep(s, popenRaises, removeFails) == s.(pidFile := None)
    ensures removeFails ==> CheckStep(s, popenRaises, removeFails) == s.(running := false)
  {
  }

  /** Content that `int` rejects ends with the flag down and the file still there. */
  lemma CheckUnparseable(s: Sup, popenRaises: bool, removeFails: bool)
    requires s.pidFile.Some? && Parse(s.pidFile.value).None?
    ensures CheckStep(s, popenRaises, removeFails) == s.(running := false)
  {
  }

  /** As written, at start-up the adoption of a live worker always ends with its PID
      file on disk and the flag down, because `Popen([])` raises: the file and the
      flag disagree, and the worker goes unsupervised. */
  lemma PopenFailureBreaksCorrespondence(s: Sup, removeFails: bool)
    requires s.pidFile.Some? && Parse(s.pidFile.value).Some?
    requires var pid := Parse(s.pidFile.value).value;
      Alive(s.os, pid) && IsPython(s.os.procs[pid].name)
    ensures !Consistent(CheckStep(s, true, removeFails))
    ensures CheckStep(s, true, removeFails).pidFile == s.pidFile && !CheckStep(s, true, removeFails).running
  {
  }

  /** As written, a PID file whose content is not a number stays on disk with the
      flag down. */
  lemma UnparseableFileLingers(s: Sup, popenRaises: bool, removeFails: bool)
    requires s.pidFile.Some? && Parse(s.pidFile.value).None?
    ensures !Consistent(CheckStep(s, popenRaises, removeFails))
  {
  }

  /** Start-up reconciliation as evidently intended: adopt the named process when it
      is alive and a Python interpreter, otherwise remove the file, treating
      unreadable content as a stale record. */
  function AdoptStep(s: Sup): Sup {
    match s.pidFile
    case None => s.(running := false)
    case Some(text) =>
      match Parse(text)
      case None => s.(running := false, pidFile := None)
      case Some(pid) =>
        if Alive(s.os, pid) && IsPython(s.os.procs[pid].name) then s.(running := true, handle := Some(pid))
        else s.(running := false, pidFile := None)
  }

  /** The corrected reconciliation always settles in a consistent state and signals
      nothing; it adopts a process exactly when the file names a live Python process,
      and then it adopts that one. */
  lemma AdoptKeepsCorrespondence(s: Sup)
    ensures Consistent(AdoptStep(s))
    ensures AdoptStep(s).os == s.os
    ensures AdoptStep(s).running ==>
      && s.pidFile.Some? && Parse(s.pidFile.value) == AdoptStep(s).handle
      && Alive(s.os, AdoptStep(s).handle.value)
      && IsPython(s.os.procs[AdoptStep(s).handle.value].name)
    ensures
      && s.pidFile.Some? && Parse(s.pidFile.value).Some?
      && Alive(s.os, Parse(s.pidFile.value).value)
      && IsPython(s.os.procs[Parse(s.pidFile.value).value].name)
      ==> AdoptStep(s).running && AdoptStep(s).handle == Parse(s.pidFile.value)
  {
  }

  // ---------------------------------------------------------------------------
  // One pass of the monitor loop in start_process_monitor

  /** One tick: when the flag is up and the handle's process has exited, lower the
      flag, drop the handle and remove the PID file. When `os.remove` raises, the
      handler only reports it: the flag and the handle are already cleared and the
      file stays. */
  function TickStep(s: Sup, removeFails: bool): Sup {
    if s.running && s.handle.Some? && !Alive(s.os, s.handle.value) then
      if s.pidFile.Some? && removeFails then s.(running := false, handle := None)
      else s.(running := false, handle := None, pidFile := None)
    else s
  }

  /** A tick that sees the worker gone lowers the flag and drops the handle; the file
      is gone unless its removal failed. */
  lemma TickDetectsExit(s: Sup, removeFails: bool)
    requires s.running && s.handle.Some? && !Alive(s.os, s.handle.value)
    ensures var r := TickStep(s, removeFails);
      && !r.running && r.handle.None? && r.os == s.os
      && r.pidFile == (if removeFails then s.pidFile else None)
  {
  }

  /** Otherwise a tick changes nothing; it never signals. */
  lemma TickOtherwiseIdle(s: Sup, removeFails: bool)
    requires !(s.running && s.handle.Some? && !Alive(s.os, s.handle.value))
    ensures TickStep(s, removeFails) == s
  {
  }

  /** An out-of-band kill of the recorded worker is noticed by the next tick. */
  lemma ExternalExitNoticed(s: Sup)
    requires Consistent(s) && s.running
    ensures var r := TickStep(s.(os := Exit(s.os, s.handle.value)), false);
      !r.running && r.pidFile.None? && Consistent(r)
  {
  }

  /** A tick whose removal fails leaves the file of an exited worker on disk with the
      flag down; the next start overwrites it, and until then a check would read it. */
  lemma TickRemovalFailureBreaksCorrespondence(s: Sup)
    requires Consistent(s) && s.running && !Alive(s.os, s.handle.value)
    ensures !Consistent(TickStep(s, true))
    ensures TickStep(s, true).pidFile == s.pidFile
  {
  }

  // ---------------------------------------------------------------------------
  // toggle_upload and on_exit

  /** `toggle_upload`: stop when running, start otherwise. */
  function ToggleStep(s: Sup, launch: Launch, writeFails: bool, removeFails: bool): (Sup, Option<StartOutcome>)
    requires !s.running ==> FreshPid(s, launch)
  {
    if s.running then (StopStep(s, removeFails), None)
    else
      var (r, outcome) := StartStep(s, launch, writeFails);
      (r, Some(outcome))
  }

  /** `on_exit`: when running, stop and quit only if the user confirms; otherwise quit.
      The panel quits after the stop even when the stop failed. */
  function ExitStep(s: Sup, confirmed: bool, removeFails: bool): (Sup, bool) {
    if s.running then
      if confirmed then (StopStep(s, removeFails), true) else (s, false)
    else (s, true)
  }

  /** Toggling a running supervisor stops it unless the removal of the file fails;
      toggling a stopped one starts it or leaves it stopped. */
  lemma ToggleFlips(s: Sup, launch: Launch, writeFails: bool, removeFails: bool)
    requires !s.running ==> FreshPid(s, launch)
    ensures s.running && (!removeFails || s.pidFile.None?) ==>
      !ToggleStep(s, launch, writeFails, removeFails).0.running
    ensures !s.running ==>
      (ToggleStep(s, launch, writeFails, removeFails).0.running <==>
       ToggleStep(s, launch, writeFails, removeFails).1 == Some(Started))
  {
  }

  /** When the panel quits while it was running, the worker's process is not alive,
      and if it was still running at the confirmation, neither is any of its
      descendants; the flag is down too unless the removal of the file failed. A
      worker that had already exited is not looked at, so its descendants are left
      as they are. Declining the confirmation changes nothing. */
  lemma ExitNeverLeavesRunning(s: Sup, confirmed: bool, removeFails: bool)
    ensures var (r, quit) := ExitStep(s, confirmed, removeFails);
      quit && r.running ==> removeFails && r.pidFile.Some? && !HandleLive(r)
    ensures var (r, quit) := ExitStep(s, confirmed, removeFails);
      quit && s.running ==> !HandleLive(r)
    ensures var (r, quit) := ExitStep(s, confirmed, removeFails);
      quit && s.running && HandleLive(s) ==>
        forall q :: q == s.handle.value || q in Descendants(s.os.procs, s.handle.value) ==> !Alive(r.os, q)
    ensures !ExitStep(s, confirmed, removeFails).1 ==>
      ExitStep(s, confirmed, removeFails).0 == s && s.running && !confirmed
  {
    StopLeavesNoLiveHandle(s, removeFails);
    if s.running && confirmed && HandleLive(s) {
      forall q | q == s.handle.value || q in Descendants(s.os.procs, s.handle.value)
        ensures !Alive(StopStep(s, removeFails).os, q)
      {
        StopEndsTree(s, removeFails, q);
      }
    }
  }

  // ---------------------------------------------------------------------------
  // Runs of the panel

  /** What can happen while the panel is open: the user presses the upload button, the
      monitor ticks, a process exits on its own or is killed from outside, or a new
      process `child` appears under the PID `pid` (its parent in `child.ppid`). */
  datatype Event =
    | Press(launch: Launch, writeFails: bool, removeFails: bool)
    | Tick(removeFails: bool)
    | ProcessExits(pid: int)
    | Forks(pid: int, child: Proc)

  /** The effect of one event. A launch under a PID that a live process holds, and a
      fork under such a PID or under the PID of the not yet reaped handle, cannot
      happen; they leave the state as it was. */
  function Apply(s: Sup, e: Event): Sup {
    match e
    case Press(launch, writeFails, removeFails) =>
      if !s.running && !FreshPid(s, launch) then s
      else ToggleStep(s, launch, writeFails, removeFails).0
    case Tick(removeFails) => TickStep(s, removeFails)
    case ProcessExits(pid) => s.(os := Exit(s.os, pid))
    case Forks(pid, child) =>
      if Alive(s.os, pid) || s.handle == Some(pid) then s
      else s.(os := Spawn(s.os, pid, child))
  }

  function Run(s: Sup, events: seq<Event>): Sup
    decreases |events|
  {
    if events == [] then s else Run(Apply(s, events[0]), events[1..])
  }

  /** Every event but a tick whose removal fails keeps the correspondence. */
  lemma ApplyKeepsConsistent(s: Sup, e: Event)
    requires Consistent(s)
    requires e != Tick(true)
    ensures Consistent(Apply(s, e))
  {
    match e
    case Press(launch, writeFails, removeFails) =>
      if s.running {
        StopSettles(s, removeFails);
      } else if FreshPid(s, launch) {
        StartKeepsConsistent(s, launch, writeFails);
      }
    case Tick(_) =>
    case ProcessExits(_) =>
    case Forks(_, _) =>
  }

  /** Over every run that begins consistent and in which no tick fails to remove the
      file, the PID file is present exactly while the flag is up and names the
      handle's process, after every step. */
  lemma {:induction false} RunKeepsConsistent(s: Sup, events: seq<Event>)
    requires Consistent(s)
    requires forall i :: 0 <= i < |events| ==> events[i] != Tick(true)
    ensures Consistent(Run(s, events))
    decreases |events|
  {
    if events != [] {
      ApplyKeepsConsistent(s, events[0]);
      assert forall i :: 0 <= i < |events[1..]| ==> events[1..][i] == events[i + 1];
      RunKeepsConsistent(Apply(s, events[0]), events[1..]);
    }
  }
}
