/** Draining adopted children without ever signalling a process that is not ours.

    The supervisor keeps one binding per process number it has observed among its
    direct children.  A binding may outlive its process: the number can then name a
    stranger, or a new child.  The discipline below is stated on identities (number
    and start time) and is kept by every operation for every behaviour of the kernel. */
module AdoptedChildren {
  import opened Wrappers
  import opened Kernel

  /** `start` is unknown while only kernel parent ownership vouches for the child. */
  datatype Binding = Binding(start: Option<nat>, fd: Option<Identity>, owned: bool, termSent: bool, killSent: bool)

  datatype Step = Continue | GiveUp | Raise

  const MAX_DRAIN_ROUNDS := 256
  const MAX_CLEANUP_DIAGNOSTICS := 32

  /** A full list of diagnostics keeps its length, so it never becomes empty again. */
  function AppendBounded(errors: nat): nat {
    if errors < MAX_CLEANUP_DIAGNOSTICS then errors + 1 else errors
  }

  ghost predicate BindingOk(w: World, p: Pid, b: Binding) {
    && (b.start.Some? ==> Settled(w, Identity(p, b.start.value)))
    && (b.fd.Some? ==> b.start.Some? && b.fd.value == Identity(p, b.start.value))
  }

  /** Every signal reached an unreaped direct child, and a TERM was the first
      signal its target ever received. */
  ghost predicate Disciplined(log: seq<Delivery>) {
    && (forall i | 0 <= i < |log| :: log[i].direct)
    && (forall i, j | 0 <= i < j < |log| && log[j].signal == Term :: log[i].target != log[j].target)
  }

  /** The binding that carried the signal still remembers it. */
  ghost predicate Remembered(bindings: map<Pid, Binding>, d: Delivery) {
    && d.target.pid in bindings
    && var b := bindings[d.target.pid];
       b.start == Some(d.target.start) && (d.signal == Term ==> b.termSent) && (d.signal == Kill ==> b.killSent)
  }

  ghost predicate Accounted(w: World, bindings: map<Pid, Binding>, log: seq<Delivery>) {
    forall i | 0 <= i < |log| :: Unreaped(w, log[i].target) ==> Remembered(bindings, log[i])
  }

  ghost predicate BindingsOk(w: World, bindings: map<Pid, Binding>, root: Pid) {
    forall p | p in bindings && p != root :: BindingOk(w, p, bindings[p])
  }

  ghost predicate TargetsSettled(w: World, log: seq<Delivery>) {
    forall i | 0 <= i < |log| :: Settled(w, log[i].target)
  }

  function Marked(bindings: map<Pid, Binding>, p: Pid, signal: Signal): map<Pid, Binding>
    requires p in bindings
  {
    bindings[p := if signal == Term then bindings[p].(termSent := true) else bindings[p].(killSent := true)]
  }

  /** Time passing, and reaps by the supervisor, keep every recorded fact. */
  lemma LaterKeeps(w: World, v: World, bindings: map<Pid, Binding>, log: seq<Delivery>, root: Pid)
    requires Later(w, v) && BindingsOk(w, bindings, root) && TargetsSettled(w, log)
    ensures BindingsOk(v, bindings, root) && TargetsSettled(v, log)
    ensures Accounted(w, bindings, log) ==> Accounted(v, bindings, log)
  {
    forall p | p in bindings && p != root ensures BindingOk(v, p, bindings[p]) {
      if bindings[p].start.Some? {
        LaterSettled(w, v, Identity(p, bindings[p].start.value));
      }
    }
    forall i | 0 <= i < |log| ensures Settled(v, log[i].target) && (Unreaped(v, log[i].target) ==> Unreaped(w, log[i].target)) {
      LaterSettled(w, v, log[i].target);
    }
  }

  class Supervisor {
    const kernel: Kernel
    const root: Identity
    var bindings: map<Pid, Binding>
    var rootReaped: bool
    var snapshotErrors: nat
    var cleanupErrors: nat

    constructor (kernel: Kernel, root: Identity)
      requires kernel.Valid() && kernel.log == []
      requires Direct(kernel.w, root.pid) && kernel.w.procs[root.pid].start == root.start
      ensures this.kernel == kernel && this.root == root && Valid(true)
      ensures bindings.Keys == {root.pid} && !rootReaped && snapshotErrors == 0 && cleanupErrors == 0
    {
      this.kernel, this.root := kernel, root;
      bindings := map[root.pid := Binding(Some(root.start), Some(root), false, false, false)];
      rootReaped, snapshotErrors, cleanupErrors := false, 0, 0;
    }

    /** `strict`: every signal so far is remembered, so that TERM may still be sent. */
    ghost predicate Valid(strict: bool)
      reads this`rootReaped, this`bindings, kernel`w, kernel`log
    {
      && kernel.Valid()
      && (!rootReaped ==> Direct(kernel.w, root.pid) && kernel.w.procs[root.pid].start == root.start)
      && root.pid in bindings
      && BindingsOk(kernel.w, bindings, root.pid)
      && TargetsSettled(kernel.w, kernel.log)
      && Disciplined(kernel.log)
      && (strict ==> Accounted(kernel.w, bindings, kernel.log))
    }

    /** What every operation leaves behind. */
    twostate predicate Progress(strict: bool)
      reads this`rootReaped, this`bindings, this`snapshotErrors, this`cleanupErrors, kernel`w, kernel`log
    {
      && Valid(strict)
      && Later(old(kernel.w), kernel.w)
      && old(kernel.log) <= kernel.log
      && Survives(old(kernel.w), kernel.w, root.pid)
      && (old(Quiet(kernel.w, root.pid)) ==> Quiet(kernel.w, root.pid) && kernel.w.nextStart == old(kernel.w.nextStart))
      && old(snapshotErrors) <= snapshotErrors && old(cleanupErrors) <= cleanupErrors
    }

    method Note()
      modifies this`cleanupErrors
      ensures cleanupErrors == AppendBounded(old(cleanupErrors)) && cleanupErrors > 0
    {
      cleanupErrors := AppendBounded(cleanupErrors);
    }

    method BudgetAvailable(deadline: nat, ghost strict: bool) returns (r: bool)
      requires Valid(strict)
      modifies this`cleanupErrors, kernel
      ensures Progress(strict) && Evolves(old(kernel.w), kernel.w) && kernel.log == old(kernel.log)
      ensures !r ==> cleanupErrors > 0
    {
      r := kernel.Before(deadline);
      LaterKeeps(old(kernel.w), kernel.w, bindings, kernel.log, root.pid);
      assert Survives(old(kernel.w), kernel.w, root.pid);
      if !r {
        Note();
      }
    }

    method Sleep(ghost strict: bool)
      requires Valid(strict)
      modifies kernel
      ensures Progress(strict) && Evolves(old(kernel.w), kernel.w) && kernel.log == old(kernel.log)
      ensures kernel.w.now > old(kernel.w.now)
    {
      kernel.Sleep();
      LaterKeeps(old(kernel.w), kernel.w, bindings, kernel.log, root.pid);
      assert Survives(old(kernel.w), kernel.w, root.pid);
    }

    method Snapshot(ghost strict: bool) returns (children: set<Pid>, failed: bool)
      requires Valid(strict)
      modifies this`snapshotErrors, kernel
      ensures Progress(strict) && Evolves(old(kernel.w), kernel.w) && kernel.log == old(kernel.log)
      ensures kernel.observed == DirectChildren(kernel.w) && children <= kernel.observed
      ensures if failed then snapshotErrors > 0 else children == kernel.observed
    {
      children, failed := kernel.ReadChildren();
      LaterKeeps(old(kernel.w), kernel.w, bindings, kernel.log, root.pid);
      assert Survives(old(kernel.w), kernel.w, root.pid);
      if failed {
        snapshotErrors := AppendBounded(snapshotErrors);
      }
    }

    /* ---------- Binding ---------- */

    method BindChild(p: Pid, ghost strict: bool) returns (r: Result<Binding>)
      requires Valid(strict) && Direct(kernel.w, p)
      modifies kernel
      ensures Progress(strict) && Evolves(old(kernel.w), kernel.w) && kernel.log == old(kernel.log)
      ensures r.Ok? ==> BindingOk(kernel.w, p, r.value) && !r.value.termSent && !r.value.killSent
    {
      var fd := kernel.PidfdOpen(p);
      LaterKeeps(old(kernel.w), kernel.w, bindings, kernel.log, root.pid);
      assert Survives(old(kernel.w), kernel.w, root.pid) && Survives(old(kernel.w), kernel.w, p);
      if fd.Err? {
        return Err(fd.error);
      }
      label bound:
      var same := kernel.PidfdTarget(fd.value);
      LaterKeeps(old@bound(kernel.w), kernel.w, bindings, kernel.log, root.pid);
      assert Survives(old@bound(kernel.w), kernel.w, root.pid) && Survives(old@bound(kernel.w), kernel.w, p);
      EvolvesTrans(old(kernel.w), old@bound(kernel.w), kernel.w);
      if same.Err? {
        return Err(same.error);
      }
      if !same.value {
        return Err(OtherError);
      }
      label proved:
      var stat := kernel.ReadStat(p);
      LaterKeeps(old@proved(kernel.w), kernel.w, bindings, kernel.log, root.pid);
      assert Survives(old@proved(kernel.w), kernel.w, root.pid) && Survives(old@proved(kernel.w), kernel.w, p);
      EvolvesTrans(old(kernel.w), old@proved(kernel.w), kernel.w);
      if stat.Err? {
        return Err(stat.error);
      }
      if stat.value.parent != kernel.w.me {
        return Err(OtherError);
      }
      r := Ok(Binding(Some(stat.value.start), Some(fd.value), false, false, false));
    }

    method VerifyChild(p: Pid, ghost strict: bool) returns (r: Result<nat>)
      requires Valid(strict) && p in bindings
      modifies kernel
      ensures Progress(strict) && Evolves(old(kernel.w), kernel.w) && kernel.log == old(kernel.log)
      ensures r.Ok? ==> Direct(kernel.w, p) && r.value == kernel.w.procs[p].start
      ensures r.Ok? && !(bindings[p].owned && bindings[p].start.None?) ==> bindings[p].start == Some(r.value)
      ensures r == Err(Missing) ==> p !in kernel.w.procs
    {
      var stat := kernel.ReadStat(p);
      LaterKeeps(old(kernel.w), kernel.w, bindings, kernel.log, root.pid);
      assert Survives(old(kernel.w), kernel.w, root.pid);
      if stat.Err? {
        return Err(stat.error);
      }
      if bindings[p].owned && bindings[p].start.None? {
        if stat.value.parent != kernel.w.me {
          return Err(OtherError);
        }
        return Ok(stat.value.start);
      }
      if bindings[p].start != Some(stat.value.start) || stat.value.parent != kernel.w.me {
        return Err(OtherError);
      }
      r := Ok(stat.value.start);
    }

    /* ---------- Signalling ---------- */

    /** Nobody is left who is the child the binding denotes. */
    ghost predicate Departed(w: World, p: Pid, b: Binding) {
      if b.start.Some? then !Unreaped(w, Identity(p, b.start.value)) else p !in w.procs
    }

    /** One delivery of the signal, to the child the binding denotes, or none when that child is gone. */
    ghost predicate Delivered(before: seq<Delivery>, after: seq<Delivery>, w: World, p: Pid, b: Binding, signal: Signal) {
      || (b.start.Some? && after == before + [Delivery(Identity(p, b.start.value), signal, true)])
      || (after == before && Departed(w, p, b))
    }

    /** The outcome of one signal. */
    twostate predicate Signalled(p: Pid, signal: Signal, strict: bool, ok: bool)
      reads this, kernel
    {
      && Progress(false)
      && Evolves(old(kernel.w), kernel.w)
      && p in old(bindings) && p in bindings
      && bindings == old(bindings)[p := old(bindings)[p].(start := bindings[p].start)]
      && (old(bindings)[p].start.Some? ==> bindings[p].start == old(bindings)[p].start)
      && cleanupErrors == old(cleanupErrors) && snapshotErrors == old(snapshotErrors)
      && (if ok then Delivered(old(kernel.log), kernel.log, kernel.w, p, bindings[p], signal) else kernel.log == old(kernel.log))
      && (strict ==> Accounted(kernel.w, if ok then Marked(bindings, p, signal) else bindings, kernel.log))
    }

    /** Adding the delivery of a signal to the child `p` denotes. */
    lemma DeliveryKeeps(w: World, before: map<Pid, Binding>, log: seq<Delivery>, p: Pid, s: nat, signal: Signal, strict: bool)
      requires BindingsOk(w, before, root.pid) && TargetsSettled(w, log) && Disciplined(log)
      requires p in before && p != root.pid && before[p].start == Some(s)
      requires Direct(w, p) && w.procs[p].start == s && s < w.nextStart
      requires strict ==> Accounted(w, before, log)
      requires signal == Term ==> strict && !before[p].termSent && !before[p].killSent
      ensures var log' := log + [Delivery(Identity(p, s), signal, true)];
              && TargetsSettled(w, log') && Disciplined(log')
              && (strict ==> Accounted(w, Marked(before, p, signal), log'))
    {
      var d := Delivery(Identity(p, s), signal, true);
      var log' := log + [d];
      assert Settled(w, d.target);
      if signal == Term {
        forall i | 0 <= i < |log| ensures log[i].target != d.target {
          assert Unreaped(w, d.target);
          assert log[i].target == d.target ==> Remembered(before, log[i]);
          assert log[i].signal == Term || log[i].signal == Kill;
        }
      }
      if strict {
        forall i | 0 <= i < |log'| && Unreaped(w, log'[i].target) ensures Remembered(Marked(before, p, signal), log'[i]) {
          assert i < |log| ==> Remembered(before, log[i]);
        }
      }
    }

    /** No delivery, so only the memory of earlier signals has to carry over. */
    lemma MarkKeeps(w: World, before: map<Pid, Binding>, log: seq<Delivery>, p: Pid, signal: Signal)
      requires Accounted(w, before, log) && p in before
      ensures Accounted(w, Marked(before, p, signal), log)
    {
      forall i | 0 <= i < |log| && Unreaped(w, log[i].target) ensures Remembered(Marked(before, p, signal), log[i]) {
        assert Remembered(before, log[i]);
      }
    }

    /** Learning the start time of an owned child. */
    lemma LearnKeeps(w: World, before: map<Pid, Binding>, log: seq<Delivery>, p: Pid, s: nat)
      requires BindingsOk(w, before, root.pid) && p in before && p != root.pid
      requires before[p].start.None? && Settled(w, Identity(p, s))
      ensures BindingsOk(w, before[p := before[p].(start := Some(s))], root.pid)
      ensures Accounted(w, before, log) ==> Accounted(w, before[p := before[p].(start := Some(s))], log)
    {
      var after := before[p := before[p].(start := Some(s))];
      assert before[p].fd.None?;
      if Accounted(w, before, log) {
        forall i | 0 <= i < |log| && Unreaped(w, log[i].target) ensures Remembered(after, log[i]) {
          assert Remembered(before, log[i]);
        }
      }
    }

    /** The identity-safe check that the number is still our child, which also
        teaches an owned binding its start time. */
    method VerifyAndLearn(p: Pid, ghost strict: bool) returns (r: Result<nat>)
      requires Valid(strict) && p in bindings && p != root.pid
      modifies this`bindings, kernel
      ensures Progress(strict) && Evolves(old(kernel.w), kernel.w) && kernel.log == old(kernel.log)
      ensures p in bindings && bindings == old(bindings)[p := old(bindings)[p].(start := bindings[p].start)]
      ensures old(bindings)[p].start.Some? ==> bindings[p].start == old(bindings)[p].start
      ensures r.Ok? ==> Direct(kernel.w, p) && r.value == kernel.w.procs[p].start && bindings[p].start == Some(r.value)
      ensures r == Err(Missing) ==> p !in kernel.w.procs
    {
      assert bindings == bindings[p := bindings[p]];
      r := VerifyChild(p, strict);
      if r.Ok? && bindings[p].start.None? {
        assert Settled(kernel.w, Identity(p, r.value));
        LearnKeeps(kernel.w, bindings, kernel.log, p, r.value);
        bindings := bindings[p := bindings[p].(start := Some(r.value))];
      }
    }

    /** Signals by number, after an identity-safe check that the number is still our child. */
    method SignalByNumber(p: Pid, signal: Signal, ghost strict: bool) returns (ok: bool)
      requires Valid(strict) && p in bindings && p != root.pid
      requires signal == Term ==> strict && !bindings[p].termSent && !bindings[p].killSent
      modifies this`bindings, kernel
      ensures Signalled(p, signal, strict, ok)
    {
      var identity := VerifyAndLearn(p, strict);
      if identity.Err? {
        if strict {
          MarkKeeps(kernel.w, bindings, kernel.log, p, signal);
        }
        return identity.error == Missing;
      }
      label verified:
      var sent := kernel.SendTo(p, signal);
      LaterKeeps(old@verified(kernel.w), kernel.w, bindings, old@verified(kernel.log), root.pid);
      assert Survives(old@verified(kernel.w), kernel.w, root.pid) && Survives(old@verified(kernel.w), kernel.w, p);
      EvolvesTrans(old(kernel.w), old@verified(kernel.w), kernel.w);
      if sent.Ok? {
        DeliveryKeeps(kernel.w, bindings, old@verified(kernel.log), p, identity.value, signal, strict);
        ok := true;
      } else {
        if strict {
          MarkKeeps(kernel.w, bindings, kernel.log, p, signal);
        }
        ok := sent.error == NoSuchProcess;
      }
    }

    /** Signals through the descriptor, falling back to the number only when the call fails. */
    method SignalPidfd(p: Pid, signal: Signal, ghost strict: bool) returns (ok: bool)
      requires Valid(strict) && p in bindings && p != root.pid
      requires signal == Term ==> strict && !bindings[p].termSent && !bindings[p].killSent
      modifies this`bindings, kernel
      ensures Signalled(p, signal, strict, ok)
    {
      assert bindings == bindings[p := bindings[p]];
      if bindings[p].fd.None? {
        if bindings[p].owned {
          ok := SignalByNumber(p, signal, strict);
        } else {
          ok := false;
        }
        return;
      }
      ok := SendByDescriptor(p, signal, strict);
      if !ok {
        label refused:
        ok := SignalByNumber(p, signal, strict);
        EvolvesTrans(old(kernel.w), old@refused(kernel.w), kernel.w);
      }
    }

    /** The call on the descriptor: done as well when the process is gone, and refused otherwise. */
    method SendByDescriptor(p: Pid, signal: Signal, ghost strict: bool) returns (done: bool)
      requires Valid(strict) && p in bindings && p != root.pid && bindings[p].fd.Some?
      requires signal == Term ==> strict && !bindings[p].termSent && !bindings[p].killSent
      modifies kernel
      ensures if done then Signalled(p, signal, strict, true)
              else Progress(strict) && Evolves(old(kernel.w), kernel.w) && kernel.log == old(kernel.log)
    {
      assert bindings == bindings[p := bindings[p]];
      var fd := bindings[p].fd.value;
      var sent := kernel.PidfdSend(fd, signal);
      LaterKeeps(old(kernel.w), kernel.w, bindings, old(kernel.log), root.pid);
      assert Survives(old(kernel.w), kernel.w, root.pid);
      if sent.Ok? {
        assert Settled(kernel.w, fd);
        DeliveryKeeps(kernel.w, bindings, old(kernel.log), p, fd.start, signal, strict);
        return true;
      }
      done := sent.error == NoSuchProcess;
      if done && strict {
        MarkKeeps(kernel.w, bindings, kernel.log, p, signal);
      }
    }

    /** Sends a signal and records that it was sent. */
    method Send(p: Pid, signal: Signal) returns (ok: bool)
      requires Valid(true) && p in bindings && p != root.pid
      requires signal == Term ==> !bindings[p].termSent && !bindings[p].killSent
      modifies this`bindings, kernel
      ensures Progress(true) && Evolves(old(kernel.w), kernel.w)
      ensures bindings.Keys == old(bindings).Keys && OnlyTouched(p)
      ensures ok ==> if signal == Term then bindings[p].termSent else bindings[p].killSent
      ensures if ok then Delivered(old(kernel.log), kernel.log, kernel.w, p, bindings[p], signal) else kernel.log == old(kernel.log)
    {
      ok := SignalPidfd(p, signal, true);
      if ok {
        bindings := Marked(bindings, p, signal);
      }
    }

    /* ---------- Reaping ---------- */

    /** Forgetting a child that is no longer there. */
    lemma ForgetKeeps(w: World, before: map<Pid, Binding>, log: seq<Delivery>, p: Pid)
      requires BindingsOk(w, before, root.pid) && TargetsSettled(w, log) && !Direct(w, p)
      ensures BindingsOk(w, before - {p}, root.pid)
      ensures Accounted(w, before, log) ==> Accounted(w, before - {p}, log)
    {
      if Accounted(w, before, log) {
        forall i | 0 <= i < |log| && Unreaped(w, log[i].target) ensures Remembered(before - {p}, log[i]) {
          assert Settled(w, log[i].target);
          assert Remembered(before, log[i]);
        }
      }
    }

    /** Waits without blocking and, once the child is reaped, forgets its binding. */
    method ReapChildNonblocking(p: Pid, ghost strict: bool) returns (r: Wait)
      requires Valid(strict) && p != root.pid
      modifies kernel
      ensures Progress(strict) && kernel.log == old(kernel.log)
      ensures forall q | q != p :: Survives(old(kernel.w), kernel.w, q)
      ensures r == Exited || r == AlreadyReaped ==> !Direct(kernel.w, p)
      ensures r == StillRunning || r == WaitFailed ==> Evolves(old(kernel.w), kernel.w)
    {
      r := kernel.WaitNonblocking(p);
      LaterKeeps(old(kernel.w), kernel.w, bindings, kernel.log, root.pid);
      assert Survives(old(kernel.w), kernel.w, root.pid);
    }

    method Forget(p: Pid, ghost strict: bool)
      requires Valid(strict) && p in bindings && p != root.pid && !Direct(kernel.w, p)
      modifies this`bindings
      ensures Progress(strict) && bindings == old(bindings) - {p}
    {
      ForgetKeeps(kernel.w, bindings, kernel.log, p);
      bindings := bindings - {p};
    }

    /** The descriptors to poll; the deadline may cut the registration short. */
    method RegisterDescriptors(deadline: nat, ghost strict: bool) returns (fds: set<Identity>)
      requires Valid(strict)
      modifies this`cleanupErrors, kernel
      ensures Progress(strict) && Evolves(old(kernel.w), kernel.w) && kernel.log == old(kernel.log)
    {
      fds := {};
      var todo := bindings.Keys;
      while todo != {}
        invariant Progress(strict) && Evolves(old(kernel.w), kernel.w) && kernel.log == old(kernel.log)
        invariant todo <= bindings.Keys
        decreases todo
      {
        label round:
        var p :| p in todo;
        todo := todo - {p};
        var available := BudgetAvailable(deadline, strict);
        EvolvesTrans(old(kernel.w), old@round(kernel.w), kernel.w);
        if !available {
          Note();
          break;
        }
        if p != root.pid && bindings[p].fd.Some? {
          fds := fds + {bindings[p].fd.value};
        }
      }
    }

    /** What reaping some children leaves of the others. */
    twostate predicate Reaped(reaped: set<Pid>, strict: bool)
      reads this, kernel
    {
      && Progress(strict) && kernel.log == old(kernel.log)
      && (forall q | q in old(bindings) && q !in reaped :: q in bindings) && root.pid !in reaped
      && SurviveAll(old(kernel.w), kernel.w, reaped)
    }

    /** One child of a reaping round. */
    method ReapIfReady(p: Pid, ready: set<Identity>, deadline: nat, ghost strict: bool)
      returns (stop: bool, reaped: set<Pid>)
      requires Valid(strict) && p in bindings
      modifies this`bindings, this`cleanupErrors, kernel
      ensures Reaped(reaped, strict) && reaped <= {p}
    {
      stop, reaped := false, {};
      var available := BudgetAvailable(deadline, strict);
      if !available {
        Note();
        stop := true;
        return;
      }
      if p == root.pid || (bindings[p].fd.Some? && bindings[p].fd.value !in ready) {
        return;
      }
      label waiting:
      var result := ReapChildNonblocking(p, strict);
      if result == StillRunning || result == WaitFailed {
        EvolvesTrans(old(kernel.w), old@waiting(kernel.w), kernel.w);
        if result == WaitFailed {
          Note();
        }
      } else {
        SurvivesTrans(old(kernel.w), old@waiting(kernel.w), kernel.w, {}, {p});
        Forget(p, strict);
        reaped := {p};
      }
    }

    /** One poll over the registered descriptors. */
    method PollReady(deadline: nat, ghost strict: bool) returns (go: bool, ready: set<Identity>)
      requires Valid(strict)
      modifies this`cleanupErrors, kernel
      ensures Progress(strict) && Evolves(old(kernel.w), kernel.w) && kernel.log == old(kernel.log)
    {
      var fds := RegisterDescriptors(deadline, strict);
      label registered:
      go := BudgetAvailable(deadline, strict);
      EvolvesTrans(old(kernel.w), old@registered(kernel.w), kernel.w);
      ready := {};
      if !go {
        return;
      }
      label polling:
      var polled := kernel.Poll(fds);
      LaterKeeps(old@polling(kernel.w), kernel.w, bindings, kernel.log, root.pid);
      assert Survives(old@polling(kernel.w), kernel.w, root.pid);
      EvolvesTrans(old(kernel.w), old@polling(kernel.w), kernel.w);
      if polled.Ok? {
        ready := polled.value;
      } else {
        Note();
      }
    }

    method ReapReadyChildren(deadline: nat, ghost strict: bool) returns (reaped: set<Pid>)
      requires Valid(strict)
      modifies this`bindings, this`cleanupErrors, kernel
      ensures Reaped(reaped, strict)
    {
      reaped := {};
      var go, ready := PollReady(deadline, strict);
      if !go {
        return;
      }
      var todo := bindings.Keys;
      while todo != {}
        invariant Reaped(reaped, strict) && todo <= bindings.Keys
        decreases todo
      {
        label round:
        var p :| p in todo;
        todo := todo - {p};
        var stop, gone := ReapIfReady(p, ready, deadline, strict);
        LaterTrans(old(kernel.w), old@round(kernel.w), kernel.w);
        SurvivesTrans(old(kernel.w), old@round(kernel.w), kernel.w, reaped, gone);
        reaped := reaped + gone;
        if stop {
          break;
        }
      }
    }

    /* ---------- Draining ---------- */

    /** Only the binding of `p` may have changed or gone. */
    twostate predicate OnlyTouched(p: Pid)
      reads this`bindings
    {
      forall q | q in bindings && q != p :: q in old(bindings) && bindings[q] == old(bindings)[q]
    }

    predicate HandledBy(b: Binding, cleanupDue: bool) {
      b.killSent || (!cleanupDue && b.termSent)
    }

    /** A new binding for a number that has none. */
    lemma AddKeeps(w: World, before: map<Pid, Binding>, log: seq<Delivery>, p: Pid, b: Binding)
      requires BindingsOk(w, before, root.pid) && p !in before && BindingOk(w, p, b)
      ensures BindingsOk(w, before[p := b], root.pid)
      ensures Accounted(w, before, log) ==> Accounted(w, before[p := b], log)
    {
      if Accounted(w, before, log) {
        forall i | 0 <= i < |log| && Unreaped(w, log[i].target) ensures Remembered(before[p := b], log[i]) {
          assert Remembered(before, log[i]);
        }
      }
    }

    method AddBinding(p: Pid, b: Binding, ghost strict: bool)
      requires Valid(strict) && p !in bindings && BindingOk(kernel.w, p, b)
      modifies this`bindings
      ensures Progress(strict) && bindings == old(bindings)[p := b]
    {
      AddKeeps(kernel.w, bindings, kernel.log, p, b);
      bindings := bindings[p := b];
    }

    /** Binds one observed child, by number alone when descriptors have run out. */
    method BindOne(p: Pid) returns (ok: bool)
      requires Valid(true) && Direct(kernel.w, p) && p !in bindings
      modifies this`bindings, kernel
      ensures Progress(true) && Evolves(old(kernel.w), kernel.w) && kernel.log == old(kernel.log)
      ensures ok ==> p in bindings
      ensures forall q | q in old(bindings) :: q in bindings
    {
      var binding := BindChild(p, true);
      if binding.Ok? {
        AddBinding(p, binding.value, true);
        return true;
      }
      if binding.error != Exhausted {
        return false;
      }
      AddBinding(p, Binding(None, None, true, false, false), true);
      label added:
      var identity := VerifyChild(p, true);
      EvolvesTrans(old(kernel.w), old@added(kernel.w), kernel.w);
      ok := identity.Ok?;
    }

    method BindObserved(direct: set<Pid>, reaped: set<Pid>, deadline: nat) returns (step: Step)
      requires Valid(true)
      requires forall p | p in direct && p !in reaped :: Direct(kernel.w, p)
      modifies this`bindings, this`cleanupErrors, kernel
      ensures Progress(true)
      ensures step == GiveUp ==> cleanupErrors > 0
      ensures step == Continue ==> forall p | p in direct && p !in reaped && p != root.pid :: p in bindings
    {
      var todo := direct;
      while todo != {}
        invariant Progress(true) && Evolves(old(kernel.w), kernel.w)
        invariant forall p | p in direct && p !in todo && p !in reaped && p != root.pid :: p in bindings
        invariant todo <= direct
        decreases todo
      {
        label round:
        var p :| p in todo;
        todo := todo - {p};
        assert p !in reaped ==> Survives(old(kernel.w), kernel.w, p);
        step := BindNext(p, reaped, deadline);
        EvolvesTrans(old(kernel.w), old@round(kernel.w), kernel.w);
        if step != Continue {
          return;
        }
      }
      step := Continue;
    }

    method BindNext(p: Pid, reaped: set<Pid>, deadline: nat) returns (step: Step)
      requires Valid(true) && (p !in reaped ==> Direct(kernel.w, p))
      modifies this`bindings, this`cleanupErrors, kernel
      ensures Progress(true) && Evolves(old(kernel.w), kernel.w)
      ensures step == GiveUp ==> cleanupErrors > 0
      ensures step == Continue ==> p in bindings || p in reaped || p == root.pid
      ensures forall q | q in old(bindings) :: q in bindings
    {
      var available := BudgetAvailable(deadline, true);
      if !available {
        Note();
        return GiveUp;
      }
      if p == root.pid || p in reaped || p in bindings {
        return Continue;
      }
      label binding:
      assert Survives(old(kernel.w), kernel.w, p);
      var ok := BindOne(p);
      EvolvesTrans(old(kernel.w), old@binding(kernel.w), kernel.w);
      step := if ok then Continue else Raise;
    }

    /** One attempt of the blocking wait, and a pause if a signal interrupted it. */
    method WaitAttempt(p: Pid) returns (r: Wait)
      requires Valid(true) && p != root.pid && Direct(kernel.w, p) && kernel.w.procs[p].zombie
      modifies kernel
      ensures Progress(true) && kernel.log == old(kernel.log)
      ensures r == Exited || r == AlreadyReaped ==> !Direct(kernel.w, p)
      ensures r == StillRunning ==>
                Direct(kernel.w, p) && kernel.w.procs[p].zombie && kernel.w.now > old(kernel.w.now)
    {
      r := ReapChildNonblocking(p, true);
      if r == StillRunning {
        assert Survives(old(kernel.w), kernel.w, p);
        label pausing:
        Sleep(true);
        LaterTrans(old(kernel.w), old@pausing(kernel.w), kernel.w);
        assert Survives(old@pausing(kernel.w), kernel.w, p);
      }
    }

    /** The blocking wait, on a child already known to have exited. */
    method ReapChild(p: Pid, deadline: nat) returns (ok: bool)
      requires Valid(true) && p != root.pid && Direct(kernel.w, p) && kernel.w.procs[p].zombie
      modifies kernel
      ensures Progress(true) && kernel.log == old(kernel.log)
      ensures ok ==> !Direct(kernel.w, p)
    {
      var result := StillRunning;
      while result == StillRunning && kernel.w.now < deadline
        invariant Progress(true) && kernel.log == old(kernel.log)
        invariant result == StillRunning ==> Direct(kernel.w, p) && kernel.w.procs[p].zombie
        invariant result == Exited || result == AlreadyReaped ==> !Direct(kernel.w, p)
        decreases result == StillRunning, deadline - kernel.w.now
      {
        label waiting:
        result := WaitAttempt(p);
        LaterTrans(old(kernel.w), old@waiting(kernel.w), kernel.w);
      }
      ok := result == Exited || result == AlreadyReaped;
    }

    /** Looks whether a child has exited, without reaping it. */
    method PeekDeparted(p: Pid, deadline: nat) returns (step: Step)
      requires Valid(true) && p in bindings && p != root.pid
      modifies this`cleanupErrors, kernel
      ensures Progress(true)
      ensures step == GiveUp ==> cleanupErrors > 0
      ensures step == Continue ==> Direct(kernel.w, p) && kernel.w.procs[p].zombie
    {
      var available := BudgetAvailable(deadline, true);
      if !available {
        Note();
        return GiveUp;
      }
      label peeking:
      var state := kernel.Peek(p);
      LaterKeeps(old@peeking(kernel.w), kernel.w, bindings, kernel.log, root.pid);
      assert Survives(old@peeking(kernel.w), kernel.w, root.pid);
      LaterTrans(old(kernel.w), old@peeking(kernel.w), kernel.w);
      if state != Exited {
        return Raise;
      }
      label exited:
      available := BudgetAvailable(deadline, true);
      LaterTrans(old(kernel.w), old@exited(kernel.w), kernel.w);
      assert Survives(old@exited(kernel.w), kernel.w, p);
      if !available {
        Note();
        return GiveUp;
      }
      step := Continue;
    }

    /** One bound child that the last snapshot did not show.  A deadline between the
        reap and the removal leaves the binding of a reaped child behind. */
    method ReapDepartedChild(p: Pid, deadline: nat) returns (step: Step)
      requires Valid(true) && p in bindings && p != root.pid
      modifies this`bindings, this`cleanupErrors, kernel
      ensures Progress(true) && (forall q | q in old(bindings) && q != p :: q in bindings)
      ensures step == GiveUp ==> cleanupErrors > 0
    {
      step := PeekDeparted(p, deadline);
      if step != Continue {
        return;
      }
      label reaping:
      var ok := ReapChild(p, deadline);
      LaterTrans(old(kernel.w), old@reaping(kernel.w), kernel.w);
      if !ok {
        return Raise;
      }
      label reaped:
      step := ForgetWithinBudget(p, deadline);
      LaterTrans(old(kernel.w), old@reaped(kernel.w), kernel.w);
    }

    /** Removes the binding of a reaped child, unless the deadline has passed. */
    method ForgetWithinBudget(p: Pid, deadline: nat) returns (step: Step)
      requires Valid(true) && p in bindings && p != root.pid && !Direct(kernel.w, p)
      modifies this`bindings, this`cleanupErrors, kernel
      ensures Progress(true) && (forall q | q in old(bindings) && q != p :: q in bindings)
      ensures Evolves(old(kernel.w), kernel.w)
      ensures step == Continue || (step == GiveUp && cleanupErrors > 0)
      ensures OnlyTouched(p) && (step == Continue ==> p !in bindings)
    {
      // The number may already denote a newly adopted child, which keeps its own identity.
      var available := kernel.Before(deadline);
      LaterKeeps(old(kernel.w), kernel.w, bindings, kernel.log, root.pid);
      assert Survives(old(kernel.w), kernel.w, root.pid);
      if !available {
        Note();
        Note();
        return GiveUp;
      }
      ForgetReaped(old(kernel.w), kernel.w, bindings, kernel.log, p);
      bindings := bindings - {p};
      step := Continue;
    }

    /** The child was reaped before time passed, so whoever has the number now was never signalled. */
    lemma ForgetReaped(w: World, v: World, before: map<Pid, Binding>, log: seq<Delivery>, p: Pid)
      requires Later(w, v) && !Direct(w, p) && BindingsOk(w, before, root.pid) && TargetsSettled(w, log)
      requires Accounted(w, before, log)
      ensures BindingsOk(v, before - {p}, root.pid) && Accounted(v, before - {p}, log)
    {
      ForgetKeeps(w, before, log, p);
      LaterKeeps(w, v, before - {p}, log, root.pid);
    }

    method ReapDeparted(direct: set<Pid>, deadline: nat) returns (step: Step)
      requires Valid(true)
      modifies this`bindings, this`cleanupErrors, kernel
      ensures Progress(true)
      ensures step == GiveUp ==> cleanupErrors > 0
    {
      var todo := bindings.Keys;
      while todo != {}
        invariant Progress(true) && todo <= bindings.Keys
        decreases todo
      {
        label round:
        var p :| p in todo;
        todo := todo - {p};
        var available := BudgetAvailable(deadline, true);
        LaterTrans(old(kernel.w), old@round(kernel.w), kernel.w);
        if !available {
          Note();
          return GiveUp;
        }
        if p == root.pid || p in direct {
          continue;
        }
        label departed:
        step := ReapDepartedChild(p, deadline);
        LaterTrans(old(kernel.w), old@departed(kernel.w), kernel.w);
        if step != Continue {
          return;
        }
      }
      step := Continue;
    }

    /** TERM, or KILL once cleanup is due, for one observed child. */
    method SignalChild(p: Pid, cleanupDue: bool, deadline: nat) returns (step: Step)
      requires Valid(true) && p in bindings && p != root.pid
      modifies this`bindings, this`cleanupErrors, kernel
      ensures Progress(true)
      ensures step == GiveUp ==> cleanupErrors > 0
      ensures OnlyTouched(p) && (step == Continue && p in bindings ==> HandledBy(bindings[p], cleanupDue))
    {
      if bindings[p].killSent || (bindings[p].termSent && !cleanupDue) {
        return Continue;
      }
      var available := BudgetAvailable(deadline, true);
      if !available {
        Note();
        return GiveUp;
      }
      label sending:
      var ok := Send(p, if cleanupDue then Kill else Term);
      LaterTrans(old(kernel.w), old@sending(kernel.w), kernel.w);
      step := if ok then Continue else Raise;
    }

    /** Reaps one observed child if it has exited, else signals it. */
    method ReapOrSignal(p: Pid, cleanupDue: bool, deadline: nat) returns (step: Step)
      requires Valid(true) && p != root.pid
      modifies this`bindings, this`cleanupErrors, kernel
      ensures Progress(true)
      ensures step == GiveUp ==> cleanupErrors > 0
      ensures OnlyTouched(p) && (step == Continue && p in bindings ==> HandledBy(bindings[p], cleanupDue))
    {
      if p !in bindings {
        return Continue;
      }
      if !cleanupDue {
        var available := BudgetAvailable(deadline, true);
        if !available {
          Note();
          return GiveUp;
        }
        label reaping:
        var result := ReapChildNonblocking(p, true);
        LaterTrans(old(kernel.w), old@reaping(kernel.w), kernel.w);
        if result == WaitFailed {
          return Raise;
        }
        if result != StillRunning {
          label reaped:
          step := ForgetWithinBudget(p, deadline);
          LaterTrans(old(kernel.w), old@reaped(kernel.w), kernel.w);
          return;
        }
      }
      label signalling:
      step := SignalChild(p, cleanupDue, deadline);
      LaterTrans(old(kernel.w), old@signalling(kernel.w), kernel.w);
    }

    method SignalObserved(direct: set<Pid>, cleanupDue: bool, deadline: nat) returns (step: Step)
      requires Valid(true)
      modifies this`bindings, this`cleanupErrors, kernel
      ensures Progress(true)
      ensures step == GiveUp ==> cleanupErrors > 0
      ensures step == Continue ==>
                forall p | p in direct && p in bindings && p != root.pid :: HandledBy(bindings[p], cleanupDue)
    {
      var todo := direct;
      while todo != {}
        invariant Progress(true)
        invariant forall p | p in direct && p !in todo && p in bindings && p != root.pid :: HandledBy(bindings[p], cleanupDue)
        decreases todo
      {
        label round:
        var p :| p in todo;
        todo := todo - {p};
        step := SignalNext(p, cleanupDue, deadline);
        LaterTrans(old(kernel.w), old@round(kernel.w), kernel.w);
        if step != Continue {
          return;
        }
      }
      step := Continue;
    }

    method SignalNext(p: Pid, cleanupDue: bool, deadline: nat) returns (step: Step)
      requires Valid(true)
      modifies this`bindings, this`cleanupErrors, kernel
      ensures Progress(true) && OnlyTouched(p)
      ensures step == GiveUp ==> cleanupErrors > 0
      ensures step == Continue && p in bindings && p != root.pid ==> HandledBy(bindings[p], cleanupDue)
    {
      var available := BudgetAvailable(deadline, true);
      if !available {
        Note();
        return GiveUp;
      }
      if p == root.pid {
        return Continue;
      }
      label child:
      step := ReapOrSignal(p, cleanupDue, deadline);
      LaterTrans(old(kernel.w), old@child(kernel.w), kernel.w);
    }

    /** KILL at once when the reserve boundary was crossed during this round. */
    method KillRemaining(direct: set<Pid>, deadline: nat) returns (step: Step)
      requires Valid(true)
      modifies this`bindings, this`cleanupErrors, kernel
      ensures Progress(true)
      ensures step == GiveUp ==> cleanupErrors > 0
      ensures step == Continue ==> forall p | p in direct && p in bindings && p != root.pid :: bindings[p].killSent
    {
      var todo := direct;
      while todo != {}
        invariant Progress(true)
        invariant forall p | p in direct && p !in todo && p in bindings && p != root.pid :: bindings[p].killSent
        decreases todo
      {
        label round:
        var p :| p in todo;
        todo := todo - {p};
        step := KillNext(p, deadline);
        LaterTrans(old(kernel.w), old@round(kernel.w), kernel.w);
        if step != Continue {
          return;
        }
      }
      step := Continue;
    }

    method KillNext(p: Pid, deadline: nat) returns (step: Step)
      requires Valid(true)
      modifies this`bindings, this`cleanupErrors, kernel
      ensures Progress(true) && OnlyTouched(p)
      ensures step == GiveUp ==> cleanupErrors > 0
      ensures step == Continue && p in bindings && p != root.pid ==> bindings[p].killSent
    {
      var available := BudgetAvailable(deadline, true);
      if !available {
        Note();
        return GiveUp;
      }
      if p == root.pid || p !in bindings {
        return Continue;
      }
      label child:
      step := SignalChild(p, true, deadline);
      LaterTrans(old(kernel.w), old@child(kernel.w), kernel.w);
    }

    /** One observation of the state in which the root may be reaped. */
    method ObservedAloneNow(ghost strict: bool) returns (alone: bool)
      requires Valid(strict) && !rootReaped
      modifies this`snapshotErrors, kernel
      ensures Progress(strict) && kernel.log == old(kernel.log)
      ensures alone ==> bindings.Keys == {root.pid} && kernel.observed == {root.pid}
      ensures alone && old(kernel.w.procs[root.pid].zombie) ==> Quiet(kernel.w, root.pid)
    {
      var children, failed := Snapshot(strict);
      alone := !failed && children == {root.pid} && bindings.Keys == {root.pid};
      if alone && kernel.w.procs[root.pid].zombie {
        ObservedAlone(kernel.w, root.pid);
      }
    }

    /** The end of a round: two observations, a settling pause apart. */
    method ConfirmDrained(clean: bool, deadline: nat) returns (step: Step, drained: bool)
      requires Valid(true) && !rootReaped
      modifies this`bindings, this`snapshotErrors, this`cleanupErrors, kernel
      ensures Progress(true)
      ensures drained ==> clean && bindings.Keys == {root.pid}
      ensures drained && old(kernel.w.procs[root.pid].zombie) ==> Quiet(kernel.w, root.pid)
    {
      step, drained := Continue, false;
      var available := BudgetAvailable(deadline, true);
      if !available {
        Note();
        return GiveUp, false;
      }
      label first:
      var alone := ObservedAloneNow(true);
      LaterTrans(old(kernel.w), old@first(kernel.w), kernel.w);
      if !alone || !clean {
        return;
      }
      label settling:
      step, drained := LookAgain(deadline);
      LaterTrans(old(kernel.w), old@settling(kernel.w), kernel.w);
    }

    /** The second observation, after a settling pause. */
    method LookAgain(deadline: nat) returns (step: Step, drained: bool)
      requires Valid(true) && !rootReaped
      modifies this`bindings, this`snapshotErrors, this`cleanupErrors, kernel
      ensures Progress(true)
      ensures drained ==> bindings.Keys == {root.pid}
      ensures drained && old(kernel.w.procs[root.pid].zombie) ==> Quiet(kernel.w, root.pid)
    {
      step, drained := Continue, false;
      Sleep(true);
      label checking:
      var available := BudgetAvailable(deadline, true);
      LaterTrans(old(kernel.w), old@checking(kernel.w), kernel.w);
      if !available {
        return GiveUp, false;
      }
      label second:
      drained := ObservedAloneNow(true);
      LaterTrans(old(kernel.w), old@second(kernel.w), kernel.w);
    }

    /** The first half of a round: a snapshot, and a binding for every child it shows. */
    method ObserveAndBind(deadline: nat) returns (step: Step, direct: set<Pid>, failed: bool)
      requires Valid(true)
      modifies this`bindings, this`snapshotErrors, this`cleanupErrors, kernel
      ensures Progress(true)
    {
      direct, failed := {}, false;
      var available := BudgetAvailable(deadline, true);
      if !available {
        Note();
        return GiveUp, direct, failed;
      }
      label observing:
      direct, failed := Snapshot(true);
      LaterTrans(old(kernel.w), old@observing(kernel.w), kernel.w);
      if root.pid !in direct && !failed {
        return Raise, direct, failed;
      }
      label reaping:
      var reaped := ReapReadyChildren(deadline, true);
      LaterTrans(old(kernel.w), old@reaping(kernel.w), kernel.w);
      forall p | p in direct && p !in reaped ensures Direct(kernel.w, p) {
        assert Survives(old@reaping(kernel.w), kernel.w, p);
      }
      label binding:
      step := BindObserved(direct, reaped, deadline);
      LaterTrans(old(kernel.w), old@binding(kernel.w), kernel.w);
    }

    /** One round of the drain. */
    method DrainRound(cleanupDeadline: nat, deadline: nat) returns (step: Step, drained: bool)
      requires Valid(true) && !rootReaped
      modifies this`bindings, this`snapshotErrors, this`cleanupErrors, kernel
      ensures Progress(true)
      ensures drained ==> bindings.Keys == {root.pid}
      ensures drained && old(kernel.w.procs[root.pid].zombie) ==> Quiet(kernel.w, root.pid)
    {
      drained := false;
      var direct, failed;
      step, direct, failed := ObserveAndBind(deadline);
      if step != Continue {
        return;
      }
      label signalling:
      step := ReapAndSignal(direct, failed, cleanupDeadline, deadline);
      LaterTrans(old(kernel.w), old@signalling(kernel.w), kernel.w);
      if step != Continue {
        return;
      }
      label confirming:
      step, drained := ConfirmDrained(!failed, deadline);
      LaterTrans(old(kernel.w), old@confirming(kernel.w), kernel.w);
    }

    /** The middle of a round: departed children, then signals. */
    method ReapAndSignal(direct: set<Pid>, failed: bool, cleanupDeadline: nat, deadline: nat) returns (step: Step)
      requires Valid(true)
      modifies this`bindings, this`cleanupErrors, kernel
      ensures Progress(true)
      ensures step == GiveUp ==> cleanupErrors > 0
    {
      step := ReapDeparted(direct, deadline);
      if step != Continue {
        return;
      }
      label signalling:
      step := SignalAndReap(direct, failed, cleanupDeadline, deadline);
      LaterTrans(old(kernel.w), old@signalling(kernel.w), kernel.w);
    }

    /** The signalling half of a round. */
    method SignalAndReap(direct: set<Pid>, failed: bool, cleanupDeadline: nat, deadline: nat) returns (step: Step)
      requires Valid(true)
      modifies this`bindings, this`cleanupErrors, kernel
      ensures Progress(true)
      ensures step == GiveUp ==> cleanupErrors > 0
    {
      var cleanupDue := failed || kernel.w.now >= cleanupDeadline;
      step := SignalObserved(direct, cleanupDue, deadline);
      if step != Continue {
        return;
      }
      if !cleanupDue && kernel.w.now >= cleanupDeadline {
        label late:
        step := KillRemaining(direct, deadline);
        LaterTrans(old(kernel.w), old@late(kernel.w), kernel.w);
        if step != Continue {
          return;
        }
      }
      if cleanupDue {
        label reaping:
        var _ := ReapReadyChildren(deadline, true);
        LaterTrans(old(kernel.w), old@reaping(kernel.w), kernel.w);
      }
    }

    /** Drains every child but the root.  A confirmed drain of an exited root means
        that the whole tree below the supervisor is gone, and it stays gone. */
    method DrainAdoptedChildren(cleanupDeadline: nat, deadline: nat) returns (drained: bool, raised: bool)
      requires Valid(true) && !rootReaped
      modifies this`bindings, this`snapshotErrors, this`cleanupErrors, kernel
      ensures Progress(true)
      ensures drained ==> !raised && bindings.Keys == {root.pid}
      ensures drained && old(kernel.w.procs[root.pid].zombie) ==> Quiet(kernel.w, root.pid)
    {
      drained, raised := false, false;
      var step := Continue;
      for round := 0 to MAX_DRAIN_ROUNDS
        invariant Progress(true) && !drained && !raised
      {
        label start:
        step, drained := DrainRound(cleanupDeadline, deadline);
        LaterTrans(old(kernel.w), old@start(kernel.w), kernel.w);
        if drained || step != Continue {
          return drained, step == Raise && !drained;
        }
        label waiting:
        var available := PauseWithin(deadline);
        LaterTrans(old(kernel.w), old@waiting(kernel.w), kernel.w);
        if !available {
          return;
        }
      }
    }

    /* ---------- Emergency cleanup ---------- */

    /** A binding for an observed child; without one the child is skipped and noted. */
    method EnsureBound(p: Pid) returns (ok: bool)
      requires Valid(true) && Direct(kernel.w, p) && p != root.pid
      modifies this`bindings, this`cleanupErrors, kernel
      ensures Progress(true) && Evolves(old(kernel.w), kernel.w) && kernel.log == old(kernel.log)
      ensures if ok then p in bindings else cleanupErrors > 0
    {
      if p in bindings {
        return true;
      }
      var binding := BindChild(p, true);
      if binding.Ok? {
        AddBinding(p, binding.value, true);
        return true;
      }
      if binding.error != Exhausted {
        Note();
        return false;
      }
      AddBinding(p, Binding(None, None, true, false, false), true);
      ok := true;
    }

    /** KILL within the budget; `Raise` tells that the signal could not be sent. */
    method KillOne(p: Pid, deadline: nat) returns (step: Step)
      requires Valid(true) && p in bindings && p != root.pid
      modifies this`bindings, this`cleanupErrors, kernel
      ensures Progress(true) && Evolves(old(kernel.w), kernel.w)
      ensures bindings.Keys == old(bindings.Keys)
      ensures step == GiveUp ==> cleanupErrors > 0
    {
      var available := BudgetAvailable(deadline, true);
      if !available {
        Note();
        return GiveUp;
      }
      label killing:
      var ok := Send(p, Kill);
      EvolvesTrans(old(kernel.w), old@killing(kernel.w), kernel.w);
      if !ok {
        Note();
        return Raise;
      }
      label waiting:
      available := BudgetAvailable(deadline, true);
      EvolvesTrans(old(kernel.w), old@waiting(kernel.w), kernel.w);
      if !available {
        Note();
        return GiveUp;
      }
      step := Continue;
    }

    /** KILL, then one attempt to reap. */
    method KillAndReap(p: Pid, deadline: nat) returns (step: Step)
      requires Valid(true) && p in bindings && p != root.pid
      modifies this`bindings, this`cleanupErrors, kernel
      ensures Progress(true)
      ensures forall q | q != p :: Survives(old(kernel.w), kernel.w, q)
      ensures forall q | q in old(bindings) && q != p :: q in bindings
      ensures step != Continue ==> step == GiveUp && cleanupErrors > 0
    {
      step := KillOne(p, deadline);
      if step == Raise {
        return Continue;
      }
      if step == GiveUp {
        return;
      }
      label reaping:
      step := ReapAndForget(p, deadline);
      LaterTrans(old(kernel.w), old@reaping(kernel.w), kernel.w);
      SurvivesTrans(old(kernel.w), old@reaping(kernel.w), kernel.w, {}, {p});
    }

    method ReapAndForget(p: Pid, deadline: nat) returns (step: Step)
      requires Valid(true) && p in bindings && p != root.pid
      modifies this`bindings, this`cleanupErrors, kernel
      ensures Progress(true) && SurviveAll(old(kernel.w), kernel.w, {p})
      ensures forall q | q in old(bindings) && q != p :: q in bindings
      ensures step != Continue ==> step == GiveUp && cleanupErrors > 0
    {
      var result := ReapChildNonblocking(p, true);
      if result == WaitFailed {
        Note();
        return Continue;
      }
      if result == StillRunning {
        return Continue;
      }
      label reaped:
      step := ForgetWithinBudget(p, deadline);
      LaterTrans(old(kernel.w), old@reaped(kernel.w), kernel.w);
      SurvivesTrans(old(kernel.w), old@reaped(kernel.w), kernel.w, {p}, {p});
    }

    method EmergencyObserved(direct: set<Pid>, reaped: set<Pid>, deadline: nat) returns (step: Step)
      requires Valid(true)
      requires forall p | p in direct && p !in reaped :: Direct(kernel.w, p)
      modifies this`bindings, this`cleanupErrors, kernel
      ensures Progress(true)
      ensures step != Continue ==> step == GiveUp && cleanupErrors > 0
    {
      var todo := direct;
      while todo != {}
        invariant Progress(true)
        invariant forall p | p in todo && p !in reaped :: Direct(kernel.w, p)
        decreases todo
      {
        label round:
        var p :| p in todo;
        todo := todo - {p};
        var available := BudgetAvailable(deadline, true);
        LaterTrans(old(kernel.w), old@round(kernel.w), kernel.w);
        if !available {
          Note();
          return GiveUp;
        }
        assert forall q | q in todo + {p} && q !in reaped :: Survives(old@round(kernel.w), kernel.w, q);
        if p == root.pid || p in reaped {
          continue;
        }
        label child:
        step := EmergencyChild(p, deadline);
        LaterTrans(old(kernel.w), old@child(kernel.w), kernel.w);
        if step != Continue {
          return;
        }
        assert forall q | q in todo && q !in reaped :: Survives(old@child(kernel.w), kernel.w, q);
      }
      step := Continue;
    }

    method EmergencyChild(p: Pid, deadline: nat) returns (step: Step)
      requires Valid(true) && Direct(kernel.w, p) && p != root.pid
      modifies this`bindings, this`cleanupErrors, kernel
      ensures Progress(true) && SurviveAll(old(kernel.w), kernel.w, {p})
      ensures step != Continue ==> step == GiveUp && cleanupErrors > 0
    {
      var bound := EnsureBound(p);
      if !bound {
        return Continue;
      }
      label killing:
      step := KillAndReap(p, deadline);
      LaterTrans(old(kernel.w), old@killing(kernel.w), kernel.w);
      SurvivesTrans(old(kernel.w), old@killing(kernel.w), kernel.w, {}, {p});
    }

    /** Bound children that the snapshot did not show. */
    method EmergencyKnown(direct: set<Pid>, deadline: nat) returns (step: Step)
      requires Valid(true)
      modifies this`bindings, this`cleanupErrors, kernel
      ensures Progress(true)
      ensures step != Continue ==> step == GiveUp && cleanupErrors > 0
    {
      var todo := bindings.Keys;
      while todo != {}
        invariant Progress(true) && todo <= bindings.Keys
        decreases todo
      {
        label round:
        var p :| p in todo;
        todo := todo - {p};
        var available := BudgetAvailable(deadline, true);
        LaterTrans(old(kernel.w), old@round(kernel.w), kernel.w);
        if !available {
          Note();
          return GiveUp;
        }
        if p == root.pid || p in direct {
          continue;
        }
        label child:
        step := KillKnown(p, deadline);
        LaterTrans(old(kernel.w), old@child(kernel.w), kernel.w);
        if step != Continue {
          return;
        }
      }
      step := Continue;
    }

    method KillKnown(p: Pid, deadline: nat) returns (step: Step)
      requires Valid(true) && p in bindings && p != root.pid
      modifies this`bindings, this`cleanupErrors, kernel
      ensures Progress(true) && (forall q | q in old(bindings) && q != p :: q in bindings)
      ensures step != Continue ==> step == GiveUp && cleanupErrors > 0
    {
      var result := ReapChildNonblocking(p, true);
      if result == WaitFailed {
        Note();
        return Continue;
      }
      label waited:
      if result == StillRunning {
        step := KillAndReap(p, deadline);
      } else {
        step := ForgetWithinBudget(p, deadline);
      }
      LaterTrans(old(kernel.w), old@waited(kernel.w), kernel.w);
    }

    /** One round of emergency cleanup; `clean` when only the root was observed. */
    method EmergencyRound(deadline: nat) returns (step: Step, clean: bool)
      requires Valid(true) && !rootReaped
      modifies this`bindings, this`snapshotErrors, this`cleanupErrors, kernel
      ensures Progress(true) && step != Raise
      ensures clean ==> bindings.Keys == {root.pid}
      ensures clean && old(kernel.w.procs[root.pid].zombie) ==> Quiet(kernel.w, root.pid)
    {
      clean := false;
      var direct, failed;
      step, direct, failed := EmergencyClear(deadline);
      if step != Continue {
        return;
      }
      label budget:
      var available := BudgetAvailable(deadline, true);
      LaterTrans(old(kernel.w), old@budget(kernel.w), kernel.w);
      if !available {
        Note();
        return GiveUp, false;
      }
      label observing:
      clean := ObservedAloneNow(true);
      LaterTrans(old(kernel.w), old@observing(kernel.w), kernel.w);
      clean := clean && !failed;
    }

    /** Observes, kills and reaps. */
    method EmergencyClear(deadline: nat) returns (step: Step, direct: set<Pid>, failed: bool)
      requires Valid(true)
      modifies this`bindings, this`snapshotErrors, this`cleanupErrors, kernel
      ensures Progress(true) && step != Raise
    {
      direct, failed := {}, false;
      var available := BudgetAvailable(deadline, true);
      if !available {
        Note();
        return GiveUp, direct, failed;
      }
      label observing:
      direct, failed := Snapshot(true);
      LaterTrans(old(kernel.w), old@observing(kernel.w), kernel.w);
      if root.pid !in direct && !failed {
        return GiveUp, direct, failed;
      }
      label reaping:
      var reaped := ReapReadyChildren(deadline, true);
      LaterTrans(old(kernel.w), old@reaping(kernel.w), kernel.w);
      forall p | p in direct && p !in reaped ensures Direct(kernel.w, p) {
        assert Survives(old@reaping(kernel.w), kernel.w, p);
      }
      label observed:
      step := EmergencyObserved(direct, reaped, deadline);
      LaterTrans(old(kernel.w), old@observed(kernel.w), kernel.w);
      if step != Continue {
        return;
      }
      label known:
      step := EmergencyKnown(direct, deadline);
      LaterTrans(old(kernel.w), old@known(kernel.w), kernel.w);
    }

    /** Kills and reaps every observed child; confirmed by two clean rounds in a row. */
    method EmergencyDirectCleanup(deadline: nat) returns (drained: bool)
      requires Valid(true) && !rootReaped
      modifies this`bindings, this`snapshotErrors, this`cleanupErrors, kernel
      ensures Progress(true)
      ensures drained ==> bindings.Keys == {root.pid}
      ensures drained && old(kernel.w.procs[root.pid].zombie) ==> Quiet(kernel.w, root.pid)
    {
      var cleanStableRounds := 0;
      for round := 0 to MAX_DRAIN_ROUNDS
        invariant Progress(true)
      {
        label start:
        var step, clean := EmergencyRound(deadline);
        LaterTrans(old(kernel.w), old@start(kernel.w), kernel.w);
        if step != Continue {
          return false;
        }
        if clean {
          cleanStableRounds := cleanStableRounds + 1;
          if cleanStableRounds >= 2 {
            return true;
          }
        } else {
          cleanStableRounds := 0;
        }
        label waiting:
        var available := PauseWithin(deadline);
        LaterTrans(old(kernel.w), old@waiting(kernel.w), kernel.w);
        if !available {
          return false;
        }
      }
      drained := false;
    }

    /** Sleeps for one poll if the budget allows it. */
    method PauseWithin(deadline: nat) returns (available: bool)
      requires Valid(true)
      modifies this`cleanupErrors, kernel
      ensures Progress(true)
    {
      available := BudgetAvailable(deadline, true);
      if !available {
        Note();
        return;
      }
      label pausing:
      Sleep(true);
      LaterTrans(old(kernel.w), old@pausing(kernel.w), kernel.w);
    }

    /* ---------- Finalizer ---------- */

    /** The last KILL, which is not recorded: no TERM can follow it. */
    method FinalKills(deadline: nat)
      requires Valid(false)
      modifies this`bindings, this`cleanupErrors, kernel
      ensures Progress(false)
    {
      var todo := bindings.Keys;
      while todo != {}
        invariant Progress(false) && todo <= bindings.Keys
        decreases todo
      {
        var p :| p in todo;
        todo := todo - {p};
        if p == root.pid {
          continue;
        }
        label killing:
        var goOn := FinalKill(p, deadline);
        LaterTrans(old(kernel.w), old@killing(kernel.w), kernel.w);
        if !goOn {
          return;
        }
      }
    }

    method FinalKill(p: Pid, deadline: nat) returns (goOn: bool)
      requires Valid(false) && p in bindings && p != root.pid
      modifies this`bindings, this`cleanupErrors, kernel
      ensures Progress(false) && bindings.Keys == old(bindings).Keys
    {
      goOn := BudgetAvailable(deadline, false);
      if !goOn {
        Note();
        return;
      }
      label killing:
      var ok := SignalPidfd(p, Kill, false);
      LaterTrans(old(kernel.w), old@killing(kernel.w), kernel.w);
      if !ok {
        Note();
      }
    }

    /** One reaping round of the finalizer, with a pause when nothing moved. */
    method FinalReap(deadline: nat) returns (stop: bool)
      requires Valid(false)
      modifies this`bindings, this`cleanupErrors, kernel
      ensures Progress(false)
    {
      stop := true;
      var available := BudgetAvailable(deadline, false);
      if !available {
        Note();
        return;
      }
      var before := bindings.Keys;
      label reaping:
      var _ := ReapReadyChildren(deadline, false);
      LaterTrans(old(kernel.w), old@reaping(kernel.w), kernel.w);
      if bindings.Keys == {root.pid} {
        return;
      }
      if bindings.Keys == before {
        label waiting:
        available := BudgetAvailable(deadline, false);
        LaterTrans(old(kernel.w), old@waiting(kernel.w), kernel.w);
        if !available {
          Note();
          return;
        }
        label pausing:
        Sleep(false);
        LaterTrans(old(kernel.w), old@pausing(kernel.w), kernel.w);
      }
      stop := false;
    }

    /** Kills and reaps what is still bound, and reports what could not be reaped. */
    method FinalizeAdoptedChildren(deadline: nat) returns (remaining: set<Pid>)
      requires Valid(false)
      modifies this`bindings, this`cleanupErrors, kernel
      ensures Progress(false) && remaining == bindings.Keys - {root.pid}
    {
      FinalKills(deadline);
      for round := 0 to MAX_DRAIN_ROUNDS
        invariant Progress(false)
      {
        label start:
        var stop := FinalReap(deadline);
        LaterTrans(old(kernel.w), old@start(kernel.w), kernel.w);
        if stop {
          break;
        }
      }
      remaining := bindings.Keys - {root.pid};
    }

    /* ---------- The root ---------- */

    method PeekRoot(ghost strict: bool) returns (r: Wait)
      requires Valid(strict) && !rootReaped
      modifies kernel
      ensures Progress(strict) && kernel.log == old(kernel.log)
      ensures r == Exited ==> kernel.w.procs[root.pid].zombie
    {
      r := kernel.Peek(root.pid);
      LaterKeeps(old(kernel.w), kernel.w, bindings, kernel.log, root.pid);
      assert Survives(old(kernel.w), kernel.w, root.pid);
    }

    /** Reaps the root if it has exited.  Reaping it when nothing else is left ends the tree. */
    method ReapRootNonblocking(ghost strict: bool) returns (r: Wait)
      requires Valid(strict) && !rootReaped
      modifies this`rootReaped, kernel
      ensures Valid(strict) && Later(old(kernel.w), kernel.w) && kernel.log == old(kernel.log)
      ensures rootReaped <==> r == Exited || r == AlreadyReaped
      ensures !rootReaped ==> Progress(strict)
      ensures old(Quiet(kernel.w, root.pid)) ==> Quiet(kernel.w, root.pid) && (rootReaped ==> |kernel.w.procs| == 0)
    {
      r := kernel.WaitNonblocking(root.pid);
      LaterKeeps(old(kernel.w), kernel.w, bindings, kernel.log, root.pid);
      if r == Exited || r == AlreadyReaped {
        rootReaped := true;
        if old(Quiet(kernel.w, root.pid)) {
          assert kernel.w.procs.Keys == {};
        }
      } else {
        assert Survives(old(kernel.w), kernel.w, root.pid);
      }
    }

    /** The blocking wait for a root that has exited. */
    method ReapRoot(deadline: nat)
      requires Valid(true) && !rootReaped
      modifies this`rootReaped, kernel
      ensures Valid(true) && kernel.log == old(kernel.log)
      ensures old(Quiet(kernel.w, root.pid)) ==> Quiet(kernel.w, root.pid) && (rootReaped ==> |kernel.w.procs| == 0)
    {
      var result := StillRunning;
      while result == StillRunning && kernel.w.now < deadline
        invariant Valid(true) && kernel.log == old(kernel.log)
        invariant rootReaped ==> result != StillRunning
        invariant old(Quiet(kernel.w, root.pid)) ==> Quiet(kernel.w, root.pid) && (rootReaped ==> |kernel.w.procs| == 0)
        decreases result == StillRunning, deadline - kernel.w.now
      {
        result := ReapRootNonblocking(true);
        if result == StillRunning {
          Sleep(true);
        }
      }
    }

    /** An empty table stays empty: there is nobody left to spawn. */
    lemma EmptyStaysEmpty(w: World, v: World)
      requires |w.procs| == 0 && WellFormed(v) && Later(w, v) && v.nextStart == w.nextStart
      ensures |v.procs| == 0
    {
      assert v.procs.Keys <= w.procs.Keys;
    }
  }

  ghost predicate SurviveAll(w: World, v: World, except: set<Pid>) {
    forall q | q !in except :: Survives(w, v, q)
  }

  lemma SurvivesTrans(w: World, v: World, u: World, except: set<Pid>, more: set<Pid>)
    requires SurviveAll(w, v, except) && SurviveAll(v, u, more)
    ensures SurviveAll(w, u, except + more)
  {
    forall q | q !in except + more ensures Survives(w, u, q) {
      assert Survives(w, v, q) && Survives(v, u, q);
    }
  }
}
