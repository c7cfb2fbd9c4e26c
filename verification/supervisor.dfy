/** The supervisor as the object it is in the control panel: the fields that
    `GitHubAutoUploadMain` updates in place, plus the PID file and the operating
    system it acts on. Each method is tied to its step in Supervision. */
module Supervisor {
  import opened Wrappers
  import opened Processes
  import opened Supervision
  import PidText

  class UploadSupervisor {
    var running: bool
    var handle: Option<int>
    var pidFile: Option<string>
    var os: Os

    function State(): Sup
      reads this
    {
      Sup(running, handle, pidFile, os)
    }

    /** The supervisor part of `__init__`: no handle and the flag down, in a world that
        may hold a PID file left by an earlier session. */
    constructor (world: Os, leftover: Option<string>)
      ensures State() == Sup(false, None, leftover, world)
    {
      running := false;
      handle := None;
      pidFile := leftover;
      os := world;
    }

    method Start(launch: Launch, writeFails: bool) returns (outcome: StartOutcome)
      requires !running ==> FreshPid(State(), launch)
      modifies this
      ensures (State(), outcome) == StartStep(old(State()), launch, writeFails)
    {
      if running {
        return AlreadyRunning;
      }
      match launch {
        case NotFound =>
          outcome := NotFoundError;
        case LaunchFailed =>
          running := false;
          outcome := StartError;
        case Launched(pid, name, parent, ignores) =>
          os := Spawn(os, pid, Proc(name, true, parent, ignores));
          handle := Some(pid);
          if writeFails {
            running := false;
            outcome := StartError;
          } else {
            pidFile := Some(PidText.Show(pid));
            running := true;
            outcome := Started;
          }
      }
    }

    /** `stop_upload`: snapshot the children, terminate each, terminate the parent,
        kill whatever survived the wait, then clear the file, the handle and the flag,
        unless removing the file raises. */
    method Stop(removeFails: bool)
      modifies this
      ensures State() == StopStep(old(State()), removeFails)
    {
      if handle.Some? && Alive(os, handle.value) {
        var h := handle.value;
        ghost var before := os;
        var kids := Snapshot(os, h);
        TerminateEach(kids);
        os := SendTerm(os, h);
        assert os == Signalled(before, h);
        var survivors := StillAlive(os, [h] + kids);
        KillEach(survivors);
        assert os == TreeShutdown(before, h);
      }
      if pidFile.Some? && removeFails {
        return;
      }
      pidFile := None;
      handle := None;
      running := false;
    }

    /** The loop that terminates each child of the snapshot, skipping vanished ones. */
    method TerminateEach(kids: seq<int>)
      modifies this`os
      ensures os == SendTermEach(old(os), kids)
    {
      for i := 0 to |kids|
        invariant os == SendTermEach(old(os), kids[..i])
      {
        assert kids[..i + 1][..i] == kids[..i];
        os := SendTerm(os, kids[i]);
      }
      assert kids[..|kids|] == kids;
    }

    /** The loop that kills each survivor of the wait, skipping vanished ones. */
    method KillEach(survivors: seq<int>)
      modifies this`os
      ensures os == SendKillEach(old(os), survivors)
    {
      for i := 0 to |survivors|
        invariant os == SendKillEach(old(os), survivors[..i])
      {
        assert survivors[..i + 1][..i] == survivors[..i];
        os := SendKill(os, survivors[i]);
      }
      assert survivors[..|survivors|] == survivors;
    }

    method CheckUploadProcess(popenRaises: bool, removeFails: bool)
      modifies this
      ensures State() == CheckStep(old(State()), popenRaises, removeFails)
    {
      if pidFile.Some? {
        var pid := PidText.Parse(pidFile.value);
        if pid.None? {
          running := false;
        } else if !Alive(os, pid.value) || !IsPython(os.procs[pid.value].name) {
          if removeFails {
            running := false;
          } else {
            pidFile := None;
          }
        } else {
          running := true;
          if popenRaises {
            running := false;
          } else {
            handle := Some(pid.value);
          }
        }
      }
    }

    /** The corrected start-up reconciliation. */
    method AdoptFromStore()
      modifies this
      ensures State() == AdoptStep(old(State()))
      ensures Consistent(State())
    {
      AdoptKeepsCorrespondence(State());
      running := false;
      if pidFile.Some? {
        var pid := PidText.Parse(pidFile.value);
        if pid.Some? && Alive(os, pid.value) && IsPython(os.procs[pid.value].name) {
          running := true;
          handle := Some(pid.value);
        } else {
          pidFile := None;
        }
      }
    }

    /** The body of one iteration of the monitor loop. */
    method MonitorTick(removeFails: bool)
      modifies this
      ensures State() == TickStep(old(State()), removeFails)
    {
      if running && handle.Some? {
        if !Alive(os, handle.value) {
          running := false;
          handle := None;
          if !removeFails {
            pidFile := None;
          }
        }
      }
    }

    method Toggle(launch: Launch, writeFails: bool, removeFails: bool) returns (outcome: Option<StartOutcome>)
      requires !running ==> FreshPid(State(), launch)
      modifies this
      ensures (State(), outcome) == ToggleStep(old(State()), launch, writeFails, removeFails)
    {
      if running {
        Stop(removeFails);
        outcome := None;
      } else {
        var started := Start(launch, writeFails);
        outcome := Some(started);
      }
    }

    /** `on_exit`; `confirmed` is the user's answer to the dialog, asked only while running. */
    method OnExit(confirmed: bool, removeFails: bool) returns (quit: bool)
      modifies this
      ensures (State(), quit) == ExitStep(old(State()), confirmed, removeFails)
    {
      if running {
        if confirmed {
          Stop(removeFails);
          quit := true;
        } else {
          quit := false;
        }
      } else {
        quit := true;
      }
    }
  }

  /** Stopping, then stopping again: the second call sends nothing, and whether or not
      the first removal failed, a second one that succeeds ends where a single
      successful stop would have. */
  method StopTwice(sup: UploadSupervisor, firstFails: bool)
    modifies sup
    ensures sup.State() == StopStep(old(sup.State()), false)
  {
    sup.Stop(firstFails);
    ghost var once := sup.State();
    sup.Stop(false);
    StopIdempotent(old(sup.State()), firstFails, false);
    assert sup.State().os == once.os;
  }
}
