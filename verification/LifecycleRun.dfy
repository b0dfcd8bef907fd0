/** The run of one lifecycle command, from the moment its root child is bound.

    `Run` supervises the root, drains what it leaves behind and reports one exit
    status.  Its contract says what an exit status of 0 is worth. */
module LifecycleRun {
  import opened Wrappers
  import opened Kernel
  import opened AdoptedChildren

  datatype Exit = Returned(status: int) | Raised

  const TIMEOUT_STATUS := 124
  const SIGNAL_BASE := 128

  class Run {
    const sup: Supervisor
    const rootStatus: int                  // how the root exits; negative for a signal
    const arrivals: nat -> Option<nat>     // the signals the supervisor itself receives
    const groupSignals: nat -> bool        // whether signalling the root raises
    var polls: nat
    var received: Option<nat>
    var terminationStarted: bool
    var timedOut: bool
    var cleanupDeadline: nat
    var rootTermSent: bool
    var rootKillSent: bool
    var primaryCleanupError: bool
    ghost var confirmed: bool              // the last drain before the reap was confirmed

    constructor (sup: Supervisor, rootStatus: int, deadline: nat,
                 arrivals: nat -> Option<nat>, groupSignals: nat -> bool)
      ensures this.sup == sup && this.rootStatus == rootStatus
      ensures received == None && !timedOut && !confirmed && !primaryCleanupError
    {
      this.sup, this.rootStatus, this.arrivals, this.groupSignals := sup, rootStatus, arrivals, groupSignals;
      polls, received, terminationStarted, timedOut := 0, None, false, false;
      cleanupDeadline, rootTermSent, rootKillSent := deadline, false, false;
      primaryCleanupError, confirmed := false, false;
    }

    /** The handler keeps the first signal.  It may run at any moment, so this stands before every
        look at what it kept. */
    method PollSignals()
      modifies this`polls, this`received
      ensures old(received).Some? ==> received == old(received)
    {
      if received == None {
        received := arrivals(polls);
      }
      polls := polls + 1;
    }

    method StartTermination(now: nat, timeoutTriggered: bool, deadline: nat, killAfter: nat, reapReserve: nat)
      modifies this`terminationStarted, this`timedOut, this`cleanupDeadline
      ensures terminationStarted
      ensures timedOut == if old(terminationStarted) then old(timedOut) else timeoutTriggered
    {
      if terminationStarted {
        return;
      }
      terminationStarted, timedOut := true, timeoutTriggered;
      var latest := if deadline < reapReserve then 0 else deadline - reapReserve;
      cleanupDeadline := if latest < now + killAfter then latest else now + killAfter;
    }

    /** Signals the root's own process group; only its failure matters here. */
    method SignalRoot() returns (ok: bool)
      requires sup.Valid(true) && !sup.rootReaped
      modifies this`polls, sup.kernel
      ensures sup.Progress(true)
    {
      sup.Sleep(true);
      ok := !groupSignals(polls);
      polls := polls + 1;
    }

    /** TERM, and KILL once cleanup is due, for the root.  Fails when a signal raises. */
    method TerminateRoot(now: nat) returns (ok: bool)
      requires sup.Valid(true) && !sup.rootReaped
      modifies this`polls, this`rootTermSent, this`rootKillSent, sup.kernel
      ensures sup.Progress(true)
    {
      ok := true;
      if !rootTermSent {
        ok := SignalRoot();
        if !ok {
          return;
        }
        rootTermSent := true;
      }
      if now >= cleanupDeadline && !rootKillSent {
        ok := SignalRoot();
        if !ok {
          return;
        }
        rootKillSent := true;
      }
    }

    /** Drains once the root has exited, falling back to emergency cleanup when the drain raises. */
    method DrainOrEmergency(deadline: nat) returns (drained: bool)
      requires sup.Valid(true) && !sup.rootReaped && sup.kernel.w.procs[sup.root.pid].zombie
      modifies this`primaryCleanupError, this`polls
      modifies sup`bindings, sup`snapshotErrors, sup`cleanupErrors, sup.kernel
      ensures sup.Progress(true)
      ensures drained ==> Quiet(sup.kernel.w, sup.root.pid) && sup.bindings.Keys == {sup.root.pid}
      ensures old(primaryCleanupError) ==> primaryCleanupError
    {
      var raised;
      drained, raised := sup.DrainAdoptedChildren(cleanupDeadline, deadline);
      if raised {
        primaryCleanupError := true;
        sup.Note();
        var ok := SignalRoot();
        if !ok {
          sup.Note();
        }
        drained := sup.EmergencyDirectCleanup(deadline);
      }
    }

    /** The state of a run between two polls. */
    ghost predicate Going()
      reads this, sup, sup.kernel
    {
      sup.Valid(true) && !sup.rootReaped && !confirmed
    }

    /** What a finished run knows: the root was reaped after a confirmed drain, and
        nothing descends from the supervisor any more. */
    ghost predicate Finished()
      reads this, sup, sup.kernel
    {
      && sup.Valid(true)
      && sup.rootReaped && confirmed
      && Quiet(sup.kernel.w, sup.root.pid) && |sup.kernel.w.procs| == 0
      && sup.bindings.Keys == {sup.root.pid}
    }

    /** Starts termination when the root has exited, a signal is latched or time is up. */
    method TerminateIfDue(exited: bool, deadline: nat, terminateAt: nat, killAfter: nat, reapReserve: nat)
      returns (ok: bool)
      requires Going()
      modifies this`polls, this`received, this`terminationStarted, this`timedOut, this`cleanupDeadline
      modifies this`rootTermSent, this`rootKillSent, sup.kernel
      ensures Going() && sup.Progress(true)
      ensures timedOut && !old(timedOut) ==> received == None && !exited && !old(terminationStarted)
      ensures old(received).Some? ==> received == old(received)
    {
      var now := sup.kernel.w.now;
      ok := true;
      PollSignals();
      if exited || received.Some? || now >= terminateAt {
        PollSignals();
        StartTermination(now, !exited && received.None?, deadline, killAfter, reapReserve);
        ok := TerminateRoot(now);
      }
    }

    method PeekExited() returns (ok: bool, exited: bool)
      requires Going()
      modifies sup.kernel
      ensures Going() && sup.Progress(true)
      ensures exited ==> ok && sup.kernel.w.procs[sup.root.pid].zombie
    {
      var state := sup.PeekRoot(true);
      ok, exited := state != WaitFailed, state == Exited;
    }

    /** One poll of the root.  `ok` is false when a call raised. */
    method PollRoot(deadline: nat, terminateAt: nat, killAfter: nat, reapReserve: nat)
      returns (ok: bool, exited: bool)
      requires Going()
      modifies this, sup.kernel
      ensures Going() && sup.Progress(true)
      ensures exited ==> sup.kernel.w.procs[sup.root.pid].zombie
      ensures old(received).Some? ==> received == old(received)
    {
      ok, exited := PeekExited();
      if !ok {
        return;
      }
      label terminating:
      ok := TerminateIfDue(exited, deadline, terminateAt, killAfter, reapReserve);
      LaterTrans(old(sup.kernel.w), old@terminating(sup.kernel.w), sup.kernel.w);
      if ok && !exited && rootKillSent {
        label peeking:
        ok, exited := PeekExited();
        LaterTrans(old(sup.kernel.w), old@peeking(sup.kernel.w), sup.kernel.w);
      }
    }

    /** Drains around an exited root and, once that is confirmed, reaps it.  A signal may be
        received meanwhile. */
    method DrainThenReap(deadline: nat) returns (drained: bool)
      requires Going() && sup.kernel.w.procs[sup.root.pid].zombie
      modifies this`confirmed, this`primaryCleanupError, this`polls, this`received, sup, sup.kernel
      ensures sup.Valid(true)
      ensures old(received).Some? ==> received == old(received)
      ensures if sup.rootReaped then Finished() else !confirmed
      ensures !drained ==> Going() && sup.kernel.w.now >= old(sup.kernel.w.now)
    {
      drained := DrainOrEmergency(deadline);
      PollSignals();
      if drained {
        sup.ReapRoot(deadline);
        confirmed := sup.rootReaped;
        PollSignals();
      }
    }

    /** The main loop.  It ends with the root reaped after a confirmed drain, or with
        the deadline, or because a call raised. */
    method Supervise(deadline: nat, terminateAt: nat, killAfter: nat, reapReserve: nat) returns (ok: bool)
      requires Going()
      modifies this, sup, sup.kernel
      ensures sup.Valid(true)
      ensures sup.rootReaped ==> Finished()
      ensures !sup.rootReaped ==> !confirmed
      ensures old(received).Some? ==> received == old(received)
    {
      ok := true;
      while ok && sup.kernel.w.now < deadline
        invariant Going()
        invariant old(received).Some? ==> received == old(received)
        decreases ok, deadline - sup.kernel.w.now
      {
        ghost var before := sup.kernel.w.now;
        var exited;
        ok, exited := PollRoot(deadline, terminateAt, killAfter, reapReserve);
        if ok && exited {
          var drained := DrainThenReap(deadline);
          if drained {
            ok := sup.rootReaped;
            return;
          }
        }
        if ok {
          sup.Sleep(true);
        }
      }
    }

    /** The exit status of a run whose root was reaped, before cleanup errors are considered. */
    function Status(): int
      reads this
    {
      if timedOut then TIMEOUT_STATUS
      else if received.Some? then SIGNAL_BASE + received.value
      else if rootStatus < 0 then SIGNAL_BASE - rootStatus
      else rootStatus
    }

    /** The last attempt to drain around an exited root, and to reap it once that is confirmed. */
    method DrainAndReapRoot(deadline: nat) returns (stop: bool)
      requires Going() && sup.kernel.w.procs[sup.root.pid].zombie
      modifies this`polls, this`confirmed, sup, sup.kernel
      ensures sup.Valid(true)
      ensures if sup.rootReaped then Finished() else !confirmed
      ensures sup.rootReaped ==> stop
    {
      stop := false;
      var drained := DrainHard(deadline);
      if drained {
        stop := ReapDrained(deadline);
      }
    }

    /** Drains, and kills what a drain does not get. */
    method DrainHard(deadline: nat) returns (drained: bool)
      requires Going() && sup.kernel.w.procs[sup.root.pid].zombie
      modifies this`polls, sup`bindings, sup`snapshotErrors, sup`cleanupErrors, sup.kernel
      ensures Going()
      ensures drained ==> Quiet(sup.kernel.w, sup.root.pid) && sup.bindings.Keys == {sup.root.pid}
    {
      var raised;
      drained, raised := sup.DrainAdoptedChildren(sup.kernel.w.now, deadline);
      if raised {
        sup.Note();
      }
      if !drained {
        var ok := SignalRoot();
        if !ok {
          sup.Note();
        }
        drained := sup.EmergencyDirectCleanup(deadline);
      }
    }

    /** Reaps the root once nothing else is left. */
    method ReapDrained(deadline: nat) returns (stop: bool)
      requires Going() && Quiet(sup.kernel.w, sup.root.pid) && sup.bindings.Keys == {sup.root.pid}
      modifies this`confirmed, sup, sup.kernel
      ensures sup.Valid(true)
      ensures if sup.rootReaped then Finished() else !confirmed
      ensures sup.rootReaped ==> stop
    {
      var available := sup.BudgetAvailable(deadline, true);
      if !available {
        sup.Note();
        return true;
      }
      var result := sup.ReapRootNonblocking(true);
      if result == WaitFailed {
        sup.Note();
      }
      confirmed := sup.rootReaped;
      stop := sup.rootReaped;
    }

    method NoteFailure(ok: bool)
      modifies sup`cleanupErrors
      ensures sup.cleanupErrors >= old(sup.cleanupErrors) && (!ok ==> sup.cleanupErrors > 0)
    {
      if !ok {
        sup.Note();
      }
    }

    /** One round of the emergency reap. */
    method EmergencyRound(deadline: nat, tried: bool) returns (stop: bool, tried': bool)
      requires Going()
      modifies this`polls, this`confirmed, sup, sup.kernel
      ensures sup.Valid(true)
      ensures if sup.rootReaped then Finished() && stop else !confirmed
    {
      tried' := tried;
      var available := sup.BudgetAvailable(deadline, true);
      if !available {
        sup.Note();
        return true, tried;
      }
      var ok, exited := PeekExited();
      NoteFailure(ok);
      if !exited && !tried {
        tried' := true;
        var _ := sup.EmergencyDirectCleanup(deadline);
      }
      stop := false;
      if exited {
        stop := DrainAndReapRoot(deadline);
      }
      if !stop {
        sup.Sleep(true);
      }
    }

    /** Kills the root and reaps it only after its tree has been drained. */
    method EmergencyReapRoot(deadline: nat)
      requires Going()
      modifies this`polls, this`confirmed, sup, sup.kernel
      ensures sup.Valid(true)
      ensures if sup.rootReaped then Finished() else !confirmed
    {
      var attempts := 0;
      while attempts < 2
        invariant Going()
      {
        var available := sup.BudgetAvailable(deadline, true);
        if !available {
          sup.Note();
          return;
        }
        var ok := SignalRoot();
        NoteFailure(ok);
        attempts := attempts + 1;
      }
      var tried := false;
      for round := 0 to MAX_DRAIN_ROUNDS
        invariant Going()
      {
        var stop;
        stop, tried := EmergencyRound(deadline, tried);
        if stop {
          return;
        }
      }
    }

    /** A failed snapshot blocks confirmation; an exited root is still reaped, with a note. */
    method ReapAfterSnapshotFailure()
      requires sup.Valid(false) && !sup.rootReaped
      modifies sup`rootReaped, sup`cleanupErrors, sup.kernel
      ensures sup.Valid(false) && sup.kernel.log == old(sup.kernel.log)
      ensures sup.rootReaped ==> sup.cleanupErrors > 0
    {
      var state := sup.PeekRoot(false);
      if state == WaitFailed {
        sup.Note();
      }
      if state == Exited {
        var result := sup.ReapRootNonblocking(false);
        if result != StillRunning {
          sup.Note();
        }
      }
    }

    /** Everything that happens on the way out, whatever the outcome so far. */
    method Finish(deadline: nat, closeFails: bool)
      requires sup.Valid(true)
      requires if sup.rootReaped then Finished() else !confirmed
      modifies this`polls, this`confirmed, sup, sup.kernel
      ensures sup.Valid(false)
      ensures old(sup.rootReaped) ==> sup.rootReaped
      ensures sup.rootReaped ==> (confirmed && |sup.kernel.w.procs| == 0) || sup.cleanupErrors > 0
      ensures old(confirmed) ==> confirmed
      ensures confirmed ==> sup.rootReaped && |sup.kernel.w.procs| == 0
      ensures !sup.rootReaped ==> sup.cleanupErrors > 0
    {
      if !sup.rootReaped {
        EmergencyReapRoot(deadline);
      }
      label finalizing:
      var remaining := sup.FinalizeAdoptedChildren(deadline);
      if sup.rootReaped {
        sup.EmptyStaysEmpty(old@finalizing(sup.kernel.w), sup.kernel.w);
      } else if sup.snapshotErrors > 0 && remaining == {} {
        ReapAfterSnapshotFailure();
      }
      if remaining != {} || closeFails {
        sup.Note();
      }
      if !sup.rootReaped {
        sup.Note();
      }
    }

    /** The whole run.  A status of 0 means: the root exited with 0, nobody interrupted or
        timed it out, no error was recorded, and no descendant of the supervisor is left.
        However the run ends, a root reaped without a confirmed drain leaves an error.  The
        status is settled when supervision ends; a signal during the way out comes too late. */
    method Execute(deadline: nat, terminateAt: nat, killAfter: nat, reapReserve: nat, extra: nat, closeFails: bool)
      returns (exit: Exit, ghost finished: bool)
      requires Going() && received == None && !timedOut && !primaryCleanupError
      modifies this, sup, sup.kernel
      ensures exit == Returned(0) ==> && rootStatus == 0 && !timedOut && received == None
                                      && sup.rootReaped && confirmed && |sup.kernel.w.procs| == 0
                                      && sup.snapshotErrors == 0 && sup.cleanupErrors == 0
      ensures exit.Returned? <==>
                finished && (Status() != 0 || (sup.snapshotErrors == 0 && sup.cleanupErrors == 0 && !primaryCleanupError))
      ensures exit.Returned? ==> exit.status == Status()
      ensures finished ==> sup.rootReaped && confirmed && |sup.kernel.w.procs| == 0
      ensures sup.rootReaped ==> confirmed || sup.cleanupErrors > 0
      ensures Disciplined(sup.kernel.log)
    {
      var ok := Supervise(deadline, terminateAt, killAfter, reapReserve);
      finished := sup.rootReaped;
      var reaped := sup.rootReaped;
      Finish(if reaped || sup.kernel.w.now + extra < deadline then deadline else sup.kernel.w.now + extra, closeFails);
      if !reaped {
        return Raised, finished;
      }
      if Status() == 0 && (sup.snapshotErrors > 0 || primaryCleanupError || sup.cleanupErrors > 0) {
        return Raised, finished;
      }
      exit := Returned(Status());
    }
  }
}
