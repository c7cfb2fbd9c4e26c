# GitHub auto-upload control panel: the upload supervisor

This project models the core of `main_gui.py`, the Tkinter control panel of a tool
that watches a folder and uploads solved problems to a GitHub repository. The heart
of the panel is the supervisor of the background upload worker (`main_upload.py`).
Its state has three parts:

- the flag `is_upload_running`;
- the handle `upload_process`;
- the PID file `upload_process.pid`.

Five operations move this state: `start_upload`, `stop_upload`, `check_upload_process`,
one pass of the monitor loop, and the routing done by `toggle_upload` and `on_exit`.

Next to the supervisor the file holds small decision procedures, and these are modelled too:

- the classification of the running interpreter (`detect_environment_type`) and the
  message for it (`get_environment_message`);
- the package-to-module mapping of `check_required_packages`;
- the readiness and mode logic of `update_status`;
- profile selection (`load_profiles`, `on_profile_change`).

Modules:

- `Processes` is the operating system as the supervisor sees it. It is a table from PID
  to process (name, liveness, parent, and whether it ignores a terminate request) plus
  a log of the signals sent. It provides the recursive descendants of a process, and
  terminate and kill that skip vanished processes. On top of these it defines the
  shutdown of a process tree performed by `stop_upload`.
- `PidText` is the text of the PID file: `str(pid)` on writing, `int(text.strip())`
  on reading.
- `Strings` holds the Python string operations used: `in`, `lower()` and `split(sep)`.
- `Supervision` is the supervisor as a state machine. Each operation is one atomic
  step function over `Sup(running, handle, pidFile, os)`. The lemmas state what each
  step guarantees. One invariant, `Consistent`, says the PID file is present exactly
  while the flag is up and names the handle's process. It is kept over every run of
  button presses, ticks, exits and forks in which no tick fails to remove the file.
- `Supervisor` is the class `UploadSupervisor`, whose methods update the fields in
  place as the Python methods do. `Stop` keeps the two signalling loops. Each method's
  postcondition ties the new state to its step in `Supervision`.
- `PythonEnv`, `Packages`, `Readiness` and `Profiles` hold the pure decision logic.

The `check_upload_process` step is modelled as the code is written, including the
`subprocess.Popen([], shell=False)` call that raises on an empty argument list. PID-file
content that `int` rejects likewise stays on disk with the flag down. A corrected
reconciliation, `AdoptStep`, is modelled beside it (see Findings).

A failing `os.remove` of the PID file is an input of the stop, check and tick steps,
because each of the three handlers that catch it leaves a different state behind.

## Model

| member | source | states |
|---|---|---|
| Strings.Lower | main_gui.py:62 | `lower()` keeps the length, maps every ASCII capital to its small letter and leaves no capital behind |
| Strings.IndexOf | main_gui.py:63 | finds an offset exactly when the pattern occurs; the offset is an occurrence and no earlier offset is one |
| Strings.Split | main_gui.py:64 | `split(sep)` yields at least one piece; joining the pieces with `sep` gives back the string; no piece contains `sep`; there is one piece exactly when `sep` does not occur |
| Strings.SplitAtFirst | main_gui.py:64 | `split` cuts at the first occurrence of the separator and continues with the rest |
| Strings.SplitLast | main_gui.py:71 | with a separator character, the last piece is exactly the text after the last separator |
| Strings.SplitSecond | main_gui.py:64 | with a separator character, the second piece of a text that starts with one is the segment up to the next separator |
| Strings.ContainsTransitive | main_gui.py:62 | a substring of a substring is a substring |
| Strings.ContainsOnlyInMiddle | main_gui.py:79 | an occurrence in `a + b + c` lies in `b` when `a` lacks the pattern's first character and `c` its last |
| PidText.ShowNat | main_gui.py:659 | `str(n)` of a natural number is a non-empty run of digits without a leading zero |
| PidText.ParseShow | main_gui.py:659 | reading back the written PID file with `int(text.strip())` gives exactly the PID written |
| PidText.ParseIgnoresPadding | main_gui.py:749 | whitespace before and after the number in the PID file, any amount on each side independently, does not change the PID read |
| Processes.Descendants | main_gui.py:684-685 | `children(recursive=True)`: never the process itself; every member is live and a child of the process or of another member; every live child of the process or of a member is a member; parenthood is the recorded parent PID, with no creation-time check |
| Processes.DescendantsLeast | main_gui.py:685 | the descendants are the least set closed under live children |
| Processes.Listing | main_gui.py:685 | the children list holds exactly the descendants, each once, in ascending PID order |
| Processes.SendTerm | main_gui.py:688-691 | `terminate()` on a live process ends it unless it ignores the request, and is logged; on a vanished process it does nothing; no other process changes |
| Processes.SendKill | main_gui.py:697-700 | `kill()` ends a live process and is logged; a vanished process is skipped; no other process changes |
| Processes.SendTermEach | main_gui.py:687-691 | the terminate loop changes exactly the listed processes, each as a terminate does |
| Processes.SendKillEach | main_gui.py:696-700 | the kill loop ends exactly the listed processes and changes no other |
| Processes.StillAlive | main_gui.py:695 | `wait_procs` reports as still alive exactly the listed processes that are alive |
| Processes.SendTermEachLog | main_gui.py:687-691 | terminating distinct live processes logs one terminate per process, in list order |
| Processes.SendKillEachLog | main_gui.py:696-700 | killing distinct live processes logs one kill per process, in list order |
| Processes.SurvivorsIgnoredTerm | main_gui.py:693-696 | after the terminates, the survivors of the wait are exactly the members of the tree that ignore a terminate request |
| Processes.ShutdownLog | main_gui.py:684-700 | a tree shutdown sends a terminate to every child of the snapshot, then one to the parent, then one kill per survivor, and nothing else |
| Processes.ShutdownEndsTree | main_gui.py:684-700 | after a tree shutdown no member of the tree is alive |
| Processes.ShutdownTargetsTree | main_gui.py:684-700 | every signal of a tree shutdown targets the parent or a process of the snapshot |
| Processes.ShutdownSparesOthers | main_gui.py:684-700 | a process outside the tree is neither changed nor signalled by a shutdown |
| Processes.Spawn | main_gui.py:656 | a process appears under a PID no live process holds, alive as launched; every other entry of the table is unchanged and nothing is signalled |
| Processes.Exit | main_gui.py:778 | a process that exits is no longer alive; no other liveness changes and nothing is signalled |
| Supervision.StartWhileRunning | main_gui.py:652-654 | starting while running only warns: the state is unchanged |
| Supervision.StartRecordsPid | main_gui.py:656-661 | a successful start needs a stopped supervisor, a launch and a written file; the flag is up, the handle and the PID file both name the new process, it is alive, nothing is signalled and no other process changes |
| Supervision.StartFailureKeepsFlagDown | main_gui.py:673-678 | a failed start leaves the flag down, the PID file as it was and nothing signalled; the handle changes only when the write failed after the launch |
| Supervision.StartKeepsConsistent | main_gui.py:650-678 | a start keeps the PID file present exactly while running and naming the handle's process |
| Supervision.StopSettles | main_gui.py:710-721 | after a stop whose removal succeeds or finds no file, the PID file is gone, the handle is none and the flag is down; when the removal raises, the outer handler leaves file, handle and flag as they were; consistency is kept either way |
| Supervision.StopLeavesNoLiveHandle | main_gui.py:682-700 | after any stop the handle names no live process, whether or not the removal failed |
| Supervision.StopIdempotent | main_gui.py:680-721 | a second stop sends nothing; after a stop that removed the file it changes nothing; after one whose removal failed, a retry that succeeds ends where a single successful stop ends |
| Supervision.StopWithoutLiveHandle | main_gui.py:682 | nothing is signalled unless a handle exists and its process has not exited |
| Supervision.StopSignalOrder | main_gui.py:682-700 | with a live handle: a terminate to every child of the snapshot, then the parent, then a kill to each survivor; the survivors are exactly the tree members that ignore terminate |
| Supervision.StopEndsTree | main_gui.py:682-700 | after a stop with a live handle neither the worker nor any descendant is alive |
| Supervision.StopSparesOthers | main_gui.py:682-700 | a process outside the worker's tree is neither changed nor signalled by a stop |
| Supervision.CheckNeverSignals | main_gui.py:745-771 | the start-up check never signals or changes a process |
| Supervision.CheckAdoptsOnlyLivePython | main_gui.py:751-757 | the check adopts only the live process named by the file whose name contains "python" in any case, and then raises the flag |
| Supervision.CheckAdoptsLivePython | main_gui.py:751-757 | conversely, a file naming a live Python process with a handle that can be built makes the check adopt exactly that process and keep the file |
| Supervision.CheckDiscardsStale | main_gui.py:751-771 | a file naming a dead or unrelated process is removed and nothing else changes; when the removal raises, the file stays and the handler lowers the flag |
| Supervision.CheckUnparseable | main_gui.py:749-771 | content `int` rejects ends with the flag down and the file left in place |
| Supervision.PopenFailureBreaksCorrespondence | main_gui.py:755-771 | as written, adopting a live worker leaves its PID file on disk with the flag down, breaking the file/flag correspondence |
| Supervision.UnparseableFileLingers | main_gui.py:749-771 | as written, an unreadable PID file stays on disk with the flag down |
| Supervision.AdoptKeepsCorrespondence | main_gui.py:745-771 | the corrected check always ends consistent and signals nothing; it adopts a process exactly when the file names a live Python process, and then that one |
| Supervision.TickDetectsExit | main_gui.py:777-792 | a tick that finds the worker exited lowers the flag, drops the handle and sends nothing; the file is removed unless `os.remove` raises, in which case it stays |
| Supervision.TickOtherwiseIdle | main_gui.py:777-778 | in every other case a tick changes nothing |
| Supervision.ExternalExitNoticed | main_gui.py:777-783 | a worker killed from outside is noticed by the next tick, which ends consistent and stopped |
| Supervision.TickRemovalFailureBreaksCorrespondence | main_gui.py:782-792 | a tick whose removal raises leaves the exited worker's PID file on disk with the flag down |
| Supervision.ToggleFlips | main_gui.py:644-648 | toggling a running supervisor stops it unless removing the file fails; toggling a stopped one leaves it running exactly when the start succeeded |
| Supervision.ExitNeverLeavesRunning | main_gui.py:881-891 | when the panel quits after confirming, the worker's process is not alive, and if it was still running at the confirmation neither is any of its descendants; it quits with the flag up only after a failed removal of the PID file; declining the confirmation changes nothing |
| Supervision.RunKeepsConsistent | main_gui.py:644-792 | over every run of presses, ticks, exits and forks that starts consistent and has no tick whose removal fails, the PID file stays present exactly while running and names the handle's process |
| Supervisor.UploadSupervisor.constructor | main_gui.py:21-23 | a new supervisor has no handle, the flag down, and whatever PID file an earlier session left |
| Supervisor.UploadSupervisor.Start | main_gui.py:650-678 | the new fields and the outcome are those of the start step |
| Supervisor.UploadSupervisor.Stop | main_gui.py:680-721 | the new fields are those of the stop step; the children are snapshot before any signal; nothing is reset when the removal raises |
| Supervisor.UploadSupervisor.TerminateEach | main_gui.py:687-691 | the loop's result is terminating the snapshot in order |
| Supervisor.UploadSupervisor.KillEach | main_gui.py:696-700 | the loop's result is killing the survivors in order |
| Supervisor.UploadSupervisor.CheckUploadProcess | main_gui.py:745-771 | the new fields are those of the check step as written |
| Supervisor.UploadSupervisor.AdoptFromStore | main_gui.py:745-771 | the new fields are those of the corrected check, and they are consistent |
| Supervisor.UploadSupervisor.MonitorTick | main_gui.py:777-792 | the new fields are those of one tick |
| Supervisor.UploadSupervisor.Toggle | main_gui.py:644-648 | the new fields and the outcome are those of the toggle step |
| Supervisor.UploadSupervisor.OnExit | main_gui.py:881-891 | the new fields and whether the panel quits are those of the exit step |
| Supervisor.StopTwice | main_gui.py:680-721 | a stop, whatever became of its removal, followed by a stop whose removal succeeds ends where one successful stop ends |
| PythonEnv.CondaTestIsOneSubstring | main_gui.py:62 | the three-way Conda test is the same as testing for "conda" alone |
| PythonEnv.CondaEnvName | main_gui.py:64 | the Conda environment name contains neither the separator nor "envs"; it is `None`, the IndexError, exactly when the text after the first "envs" holds no separator |
| PythonEnv.Basename | main_gui.py:71 | `basename(prefix)` contains no separator |
| PythonEnv.BasenameOf | main_gui.py:71 | the virtual environment's name is the text after the last separator of the prefix, or the whole prefix when it has none |
| PythonEnv.CondaEnvNameOf | main_gui.py:63-65 | when the first "envs" in the path is followed by a separator, a name and another separator, and no later "envs" occurs, the environment name is exactly that name |
| PythonEnv.Classify | main_gui.py:57-75 | Conda base exactly when the Conda test holds without "envs"; a named Conda environment or an error only with "envs"; a virtual environment exactly when not Conda and the prefix differs or `real_prefix` exists; system Python otherwise; names hold no separator; a Conda environment's name is `CondaEnvName` of the executable and the error is exactly its IndexError; a virtual environment's name is `Basename` of the prefix |
| PythonEnv.MessageMatchesKind | main_gui.py:77-84 | every description gets the message of its kind, for every virtual environment whose name does not contain "Conda" (the other names are covered by `VirtualEnvNamedConda`) |
| PythonEnv.VirtualEnvNamedConda | main_gui.py:79-80 | a virtual environment whose name contains "Conda" gets the Conda message instead of its own |
| Packages.ModuleName | main_gui.py:43-50 | the three renamed packages map to their modules; every other package is imported under its own name |
| Packages.ModuleNamesDistinct | main_gui.py:35-50 | no two required packages are imported through the same module |
| Packages.MissingPackages | main_gui.py:35-55 | a package is reported missing exactly when it is required and its module is not importable; the report keeps the required order; it is empty exactly when every module imports |
| Readiness.ModeLabel | main_gui.py:823-828 | a known mode gets a label that is not itself a mode name; any other mode is shown verbatim |
| Readiness.KnownLabelsDistinct | main_gui.py:823-827 | the three known modes get three different labels |
| Readiness.UpdateStatus | main_gui.py:797-851 | ready exactly when `.env` loads and all four settings are non-empty; missing file and failed load are reported as such; the button is left alone exactly while running and enabled exactly when stopped and ready; the mode line shows the mode's label when ready, "not set" when `.env` is missing, and is left alone otherwise |
| Readiness.DefaultModeIsRealtime | main_gui.py:808 | without a mode setting the real-time label is shown |
| Readiness.EmptySettingDisables | main_gui.py:810 | an empty value counts as missing and disables the button of a stopped panel |
| Profiles.LoadProfiles | main_gui.py:509-536 | a failed listing changes nothing; otherwise the selector shows the listing; a non-empty listing leaves a listed current profile; the selection switches, to the first listed profile, exactly when the current one is empty or unlisted, and is kept otherwise; an empty listing clears it |
| Profiles.OnProfileChange | main_gui.py:538-564 | an empty selection does nothing; the status is refreshed exactly when the activation succeeded; a refusal shows its message, an exception the prefixed error |
| Profiles.ReloadActivatesOnlyListed | main_gui.py:513-518 | a reload refreshes only after activating a listed profile that was not selected; a listed selection is kept with no activation |

## Left out

- The Tkinter user interface is not modelled: widgets, layout, labels, colours, message boxes and `update_upload_button`. Outcomes such as `StartOutcome` and `Effect` stand for the message box shown.
- `install_packages`, `show_package_install_dialog` and `check_package_status` are not modelled. They run pip in a subprocess, stream its output from a thread and draw widgets.
- The real `psutil`, `subprocess`, `open` and `os.remove` calls are replaced by the process table and an optional PID-file text.
- The `while True` loop, the sleeps and the thread of `start_process_monitor` are not modelled: one tick is an atomic step, and interleaving with the UI thread is not captured.
- `load_dotenv` and the environment-variable reads are replaced by the `EnvFile` input.
- `EnvGenerator` (`env_generate`) is not part of this model. `get_all_profiles` and `copy_profile_to_current_env` are inputs; the profile label built from `get_profile_info` is UI.
- `open_baekjoon`, `open_setup`, `show_history` and mouse-wheel scrolling are not modelled: they are fire-and-forget launches or UI.
- Supervision.StopStep: the `NoSuchProcess` and `Exception` handlers inside `stop_upload` (main_gui.py:704-708) are not modelled. With atomic steps the parent is alive when examined, and signalling a vanished process is a no-op, so these handlers are not reached. The outer handler (main_gui.py:719-721) is modelled for a failing `os.remove`; an exception from the message box after the reset is not.
- Supervision.TickStep, Supervision.CheckStep: the handlers at main_gui.py:790-792 and 768-771 are modelled for a failing `os.remove` (and, in the check, for `int` and `Popen`); no other exception inside them is.
- Supervision.RunKeepsConsistent: runs that contain a tick whose removal of the PID file fails are excluded, because such a tick breaks the correspondence (`Supervision.TickRemovalFailureBreaksCorrespondence`).
- Supervision.StartStep: a launch is given a PID that no live process holds (`FreshPid`), as the operating system guarantees. In a run, a launch or fork under a PID in use, or a fork under the PID of a handle not yet reaped by a tick, does not occur and leaves the state unchanged.
- Supervision.AdoptStep: the corrected reconciliation assumes that removing a stale PID file succeeds.
- Supervision.CheckStep: the `NoSuchProcess` handler at main_gui.py:761-762 (a process that vanishes between `pid_exists` and `Process`) cannot occur with atomic steps.
- Processes.SendKill: a kill always ends the process, and the 3-second wait of `wait_procs` is not timed. A process that ignores a terminate is still alive after it; every other one has ended.
- Processes.Listing, Processes.StillAlive: psutil promises no order for the children or for the survivors of `wait_procs`, which builds them from a set. The model lists the children in ascending PID order and keeps the survivors in the order given. The exact signal logs of `Processes.ShutdownLog` and `Supervision.StopSignalOrder` fix both orders; the order-free facts (`ShutdownEndsTree`, `ShutdownTargetsTree`, `ShutdownSparesOthers`, `SurvivorsIgnoredTerm`, `StopEndsTree`, `StopSparesOthers`) do not depend on them.
- Processes.Descendants: processes carry no creation time and are never reparented, so psutil's guard in `children(recursive=True)` is not modelled: psutil drops a process created before its recorded parent, as happens when the parent's PID was freed and reused. The model counts such a process with a stale parent PID as a descendant, so a stop may signal a process the real `stop_upload` would not list, and the tree of `StopEndsTree` and `StopSparesOthers` can be larger than the one the program signals.
- Supervision.StartStep: a failed write of the PID file leaves its previous content. The real `open(..., 'w')` may already have truncated the file.
- Strings.Lower, PidText.Parse: only ASCII case mapping and the ASCII whitespace of `strip()` are modelled. Underscores and non-ASCII digits accepted by `int` are not.
- Readiness.UpdateStatus: an exception while reading settings is one input, `Unreadable`. The status texts with the profile name, and the folder and repository labels, are UI.
- Packages.MissingPackages: an exception other than `ImportError` raised while importing a module is not modelled.
- PythonEnv.CondaEnvName: the `else 'unknown'` alternative at main_gui.py:64 is dead code, because the enclosing branch already requires "envs".

## Findings

| source | as written | input that shows it | evidently intended | confidence | as-written member | corrected member |
|---|---|---|---|---|---|---|
| main_gui.py:755-771 | a live Python worker named by the PID file is adopted by raising the flag and building a handle with `Popen([], shell=False)`, which raises on an empty argument list; the handler lowers the flag and leaves the file | a PID file naming a live process called `python.exe` at start-up | the worker is adopted: the flag is up and the handle names it, so the panel can stop it | not executed | Supervision.PopenFailureBreaksCorrespondence | Supervision.AdoptKeepsCorrespondence |
| main_gui.py:749-771 | PID-file content that `int` rejects raises, the handler lowers the flag and the file stays on disk, to be rejected again on every launch | a PID file containing `abc` | an unreadable record is discarded like a stale one | not executed | Supervision.UnparseableFileLingers | Supervision.AdoptKeepsCorrespondence |

Three smaller quirks are captured rather than corrected:

- A stop after the worker has exited, but before a tick has noticed it, sends no signal, so descendants of the worker that are still running are left running, because `stop_upload` examines only the worker itself (main_gui.py:682; `Supervision.StopWithoutLiveHandle`, `Supervision.ExitNeverLeavesRunning`).
- A virtual environment whose directory name contains "Conda" is described with the Conda message, because `get_environment_message` tests substrings of the description (`PythonEnv.VirtualEnvNamedConda`; `PythonEnv.MessageMatchesKind` excludes such names).
- A Conda environment name is cut at a later "envs" in the path, because the path is split at every "envs" (`PythonEnv.CondaEnvName`; `PythonEnv.CondaEnvNameOf` assumes no later "envs").
