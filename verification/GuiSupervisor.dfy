/** Supervising a graphical session: the handles, the drain and the completion frame.

    The process table may change between any two observations; `observe` gives it for each.
    Handles bind a process number and its start time. */
module GuiSupervisor {
  import opened Numerals
  import opened ProcessTree
  import opened Wrappers

  const EXIT_INTERNAL := 125
  const EXIT_TIMEOUT := 124
  const SIGNAL_BASE := 128
  const MAX_FRAME_BYTES := 256
  const SIGKILL := 9
  const SIGTERM := 15

  datatype Reaped = Reaped(pid: nat, exitCode: int)

  datatype Signalled = Signalled(pid: nat, start: nat, signum: nat)

  /** When a status was picked, and the root's exit code by then. */
  datatype Picked = Picked(at: nat, root: Option<int>)

  class Supervisor {
    const self: nat
    const observe: nat -> Table
    const listing: nat -> Option<seq<nat>>   // the numbers a directory listing shows, if it works
    const reaps: nat -> seq<Reaped>      // the children a round of waiting returns
    const children: nat -> Option<seq<nat>>   // the kernel's list of direct children, if it can be read
    const arrivals: nat -> Option<nat>   // the signal the supervisor itself receives before an observation
    const writes: nat -> Option<nat>     // how much a write takes, by when it is made; none for an error
    const nonce: string
    var clock: nat                       // the observations and writes made so far
    var handles: map<nat, nat>           // process number to start time
    var rootPid: Option<nat>
    var rootStatus: Option<int>
    var completionWritten: bool
    var output: string                   // what went into the completion pipe
    var signalled: seq<Signalled>
    ghost var emptyAt: Option<nat>       // when the tree was last observed empty
    ghost var picked: Option<Picked>     // what the status of the last frame was picked from

    constructor (self: nat, nonce: string, observe: nat -> Table, listing: nat -> Option<seq<nat>>, reaps: nat -> seq<Reaped>,
                 children: nat -> Option<seq<nat>>, arrivals: nat -> Option<nat>, writes: nat -> Option<nat>)
      ensures handles == map[] && rootPid == None && rootStatus == None && clock == 0
      ensures !completionWritten && output == "" && signalled == [] && this.nonce == nonce && this.self == self
      ensures this.observe == observe && this.listing == listing && this.reaps == reaps && this.children == children
      ensures this.arrivals == arrivals && this.writes == writes
    {
      this.self, this.nonce, this.observe, this.listing := self, nonce, observe, listing;
      this.reaps, this.children, this.arrivals, this.writes := reaps, children, arrivals, writes;
      clock, handles, rootPid, rootStatus := 0, map[], None, None;
      completionWritten, output, signalled, emptyAt, picked := false, "", [], None, None;
    }

    /* ---------- The supervisor's own signals ---------- */

    /** The first signal that arrives before a time. */
    function FirstSignal(until: nat): Option<nat> {
      if until == 0 then None
      else if FirstSignal(until - 1).Some? then FirstSignal(until - 1)
      else arrivals(until - 1)
    }

    /** `pending_signal`: the handler runs between any two steps, and keeps the first signal. */
    function Pending(): Option<nat>
      reads this`clock
    {
      FirstSignal(clock)
    }

    lemma {:induction false} FirstSignalIs(from: nat, until: nat)
      requires from <= until
      ensures FirstSignal(from).Some? ==> FirstSignal(until) == FirstSignal(from)
      ensures FirstSignal(from).None? ==> (FirstSignal(until).Some? <==> exists k | from <= k < until :: arrivals(k).Some?)
    {
      if from < until {
        FirstSignalIs(from, until - 1);
      }
    }

    /** This listing works and shows all of the table. */
    ghost predicate ListsAll(k: nat, t: Table) {
      listing(k).Some? && forall pid | pid in t :: pid in listing(k).value
    }

    /** From now on the table stays `t`, listings show all of it, and nobody is left to wait for. */
    ghost predicate Stable(t: Table)
      reads this`clock
    {
      && (forall k | k >= clock :: observe(k) == t)
      && (forall k | k >= clock :: ListsAll(k, t))
      && (forall k | k >= clock :: reaps(k) == [])
      && (forall k, pid | k >= clock && children(k).Some? :: pid in children(k).value <==> pid in t && t[pid].ppid == self)
    }

    /** No process of a table has the supervisor as its parent. */
    ghost predicate Childless(table: Table) {
      forall pid | pid in table :: table[pid].ppid != self
    }

    /** The supervisor alone is listed, and no process has it as its parent. */
    ghost predicate AloneAt(k: nat) {
      listing(k) == Some([self]) && children(k) == Some([]) && Childless(observe(k))
    }

    ghost predicate AloneFrom(from: nat) {
      forall k | k >= from :: AloneAt(k)
    }

    /** The supervisor is alone from now on, and has no handles. */
    ghost predicate Deserted()
      reads this`clock, this`handles
    {
      handles == map[] && AloneFrom(clock)
    }

    method Identity(pid: nat) returns (info: Option<Info>)
      modifies this`clock
      ensures clock == old(clock) + 1
      ensures info.Some? <==> pid in observe(old(clock))
      ensures info.Some? ==> info.value == observe(old(clock))[pid]
    {
      var t := observe(clock);
      clock := clock + 1;
      info := if pid in t then Some(t[pid]) else None;
    }

    /** The process was alive with this start time at one of the observations made meanwhile. */
    ghost predicate SeenAlive(pid: nat, start: nat, from: nat)
      reads this`clock
    {
      exists k :: from <= k < clock && Live(observe(k), pid) && observe(k)[pid].start == start
    }

    /** `_acquire`: binds a live process of the expected start time, or confirms its handle. */
    method Acquire(pid: nat, expectedStart: nat, ghost t: Table) returns (ok: bool)
      modifies this`clock, this`handles
      ensures clock >= old(clock)
      ensures ok ==> pid in handles && handles[pid] == expectedStart && SeenAlive(pid, expectedStart, old(clock))
      ensures handles == if ok then old(handles)[pid := expectedStart] else old(handles)
      ensures pid in old(handles) && old(handles)[pid] != expectedStart ==> !ok
      ensures !Live(observe(old(clock)), pid) ==> !ok && clock == old(clock) + 1
      ensures old(Stable(t)) ==> Stable(t)
      ensures old(Stable(t)) && Live(t, pid) && t[pid].start == expectedStart
              ==> (ok <==> pid !in old(handles) || old(handles)[pid] == expectedStart)
    {
      var info := Identity(pid);
      if info.None? || info.value.zombie || info.value.start != expectedStart {
        return false;
      }
      assert Live(observe(old(clock)), pid);
      if pid in handles {
        return handles[pid] == expectedStart;
      }
      var target := Identity(pid);
      if target.None? {
        return false;
      }
      var rebound := Identity(pid);
      if rebound.None? || rebound.value.zombie || rebound.value.start != expectedStart {
        return false;
      }
      handles := handles[pid := expectedStart];
      ok := true;
    }

    /** Reads the identities of all listed processes, one at a time. */
    method ReadTable(ghost t: Table) returns (ok: bool, table: Table, pids: seq<nat>)
      modifies this`clock
      ensures clock >= old(clock) && (ok <==> listing(old(clock)).Some?)
      ensures forall pid | pid in table :: pid in pids
      ensures old(Stable(t)) ==> ok && Stable(t) && table == t
      ensures old(Deserted()) ==> clock == old(clock) + 2 && Childless(table)
    {
      var listed := listing(clock);
      assert old(Stable(t)) ==> ListsAll(clock, t);
      assert old(Deserted()) ==> AloneAt(clock);
      clock := clock + 1;
      table := map[];
      if listed.None? {
        return false, table, [];
      }
      ok, pids := true, listed.value;
      for i := 0 to |pids|
        invariant clock == old(clock) + 1 + i
        invariant forall pid | pid in table :: pid in pids
        invariant old(Deserted()) ==> Childless(table)
        invariant old(Stable(t)) ==>
                    && (forall pid | pid in table :: pid in t && table[pid] == t[pid])
                    && (forall k | 0 <= k < i :: pids[k] in t ==> pids[k] in table)
      {
        assert old(Deserted()) ==> AloneAt(clock);
        var info := Identity(pids[i]);
        if info.Some? {
          table := table[pids[i] := info.value];
        }
      }
    }

    /** The handle names a live process of the table. */
    predicate LiveHandle(table: Table, pid: nat)
      reads this`handles
    {
      pid in handles && Live(table, pid) && table[pid].start == handles[pid]
    }

    /** Where a scan starts: the supervisor and its live handles. */
    function Roots(table: Table): set<nat>
      reads this`handles
    {
      {self} + set pid | pid in handles && LiveHandle(table, pid)
    }

    /** Handles were only added, and only for live processes reachable from the roots. */
    ghost predicate Grown(before: map<nat, nat>, table: Table, roots: set<nat>)
      reads this`handles
    {
      && (forall pid | pid in before :: pid in handles && handles[pid] == before[pid])
      && (forall pid | pid in handles && pid !in before :: LiveHandle(table, pid) && Reachable(table, roots, pid))
    }

    /** Everything owned is the supervisor or has a live handle, and is reachable. */
    ghost predicate Owned(owned: set<nat>, table: Table, roots: set<nat>)
      reads this`handles
    {
      roots <= owned && forall pid | pid in owned :: (pid == self || LiveHandle(table, pid)) && Reachable(table, roots, pid)
    }

    /** A process the scan must still take: live, with an owned parent, and without a stale handle. */
    ghost predicate Missing(owned: set<nat>, table: Table, pid: nat)
      reads this`handles
    {
      Live(table, pid) && pid !in owned && table[pid].ppid in owned && (pid in handles ==> handles[pid] == table[pid].start)
    }

    /** One pass over the table: takes every live process whose parent is owned by then. */
    method Sweep(table: Table, pids: seq<nat>, owned: set<nat>, ghost roots: set<nat>, ghost t: Table)
      returns (now: set<nat>, changed: bool)
      requires Owned(owned, table, roots) && owned <= table.Keys + {self}
      modifies this`clock, this`handles
      ensures clock >= old(clock) && Owned(now, table, roots) && owned <= now <= table.Keys + {self}
      ensures Grown(old(handles), table, roots)
      ensures changed <==> now != owned
      ensures owned == {self} && Childless(table) ==> !changed && clock == old(clock) && handles == old(handles)
      ensures old(Stable(t)) ==> Stable(t)
      ensures old(Stable(t)) && table == t && !changed ==> forall pid | pid in pids :: !Missing(owned, t, pid)
    {
      now, changed := owned, false;
      for i := 0 to |pids|
        invariant clock >= old(clock) && Owned(now, table, roots) && owned <= now <= table.Keys + {self}
        invariant Grown(old(handles), table, roots)
        invariant changed <==> now != owned
        invariant owned == {self} && Childless(table) ==> !changed && clock == old(clock) && handles == old(handles)
        invariant old(Stable(t)) ==> Stable(t)
        invariant old(Stable(t)) && table == t && !changed ==> forall k | 0 <= k < i :: !Missing(owned, t, pids[k])
      {
        var pid := pids[i];
        if pid in table && !table[pid].zombie && pid !in now && table[pid].ppid in now {
          label before:
          var ok := Acquire(pid, table[pid].start, t);
          ChildIsReachable(table, roots, pid);
          if ok {
            now, changed := now + {pid}, true;
          }
        }
      }
    }

    /** Takes processes until a pass takes none. */
    method TakeReachable(table: Table, pids: seq<nat>, ghost t: Table)
      requires forall pid | pid in table :: pid in pids
      modifies this`clock, this`handles
      ensures clock >= old(clock) && Grown(old(handles), table, old(Roots(table)))
      ensures old(handles) == map[] && Childless(table) ==> clock == old(clock) && handles == map[]
      ensures old(Stable(t)) ==> Stable(t)
      ensures old(Stable(t)) && table == t ==>
                exists owned :: Owned(owned, t, old(Roots(t))) && forall pid | pid in t :: !Missing(owned, t, pid)
    {
      ghost var roots := Roots(table);
      var owned := Roots(table);
      RootsAreOwned(table);
      var changed := true;
      while changed
        invariant clock >= old(clock) && Grown(old(handles), table, roots)
        invariant Owned(owned, table, roots) && owned <= table.Keys + {self}
        invariant old(handles) == map[] && Childless(table) ==> owned == {self} && clock == old(clock) && handles == map[]
        invariant old(Stable(t)) ==> Stable(t)
        invariant old(Stable(t)) && table == t && !changed ==> forall pid | pid in t :: !Missing(owned, t, pid)
        decreases table.Keys + {self} - owned, changed
      {
        var now;
        ghost var before := handles;
        now, changed := Sweep(table, pids, owned, roots, t);
        ghost var was := owned;
        owned := now;
      }
    }

    lemma RootsAreOwned(table: Table)
      ensures Owned(Roots(table), table, Roots(table)) && Roots(table) <= table.Keys + {self}
    {
      forall pid | pid in Roots(table) ensures Reachable(table, Roots(table), pid) {
        assert ReachableIn(table, Roots(table), pid, 0);
      }
    }

    /** Drops the handles whose process is gone or was replaced. */
    method CloseStale(table: Table)
      modifies this`handles
      ensures forall pid :: pid in handles <==> pid in old(handles) && pid in table && table[pid].start == old(handles)[pid]
      ensures forall pid | pid in handles :: handles[pid] == old(handles)[pid]
    {
      var todo := handles.Keys;
      while todo != {}
        invariant todo <= handles.Keys
        invariant forall pid | pid in handles :: pid in old(handles) && handles[pid] == old(handles)[pid]
        invariant forall pid | pid in old(handles) :: pid in handles || pid !in table || table[pid].start != old(handles)[pid]
        invariant forall pid | pid in handles && pid !in todo :: pid in table && table[pid].start == handles[pid]
        decreases todo
      {
        var pid :| pid in todo;
        todo := todo - {pid};
        if pid !in table || table[pid].start != handles[pid] {
          handles := handles - {pid};
        }
      }
    }

    /** No handle is stale. */
    ghost predicate NoStale(t: Table)
      reads this`handles
    {
      forall pid | pid in handles :: pid in t && t[pid].start == handles[pid]
    }

    /** Every live process reachable from the roots has a handle. */
    ghost predicate Complete(t: Table, roots: set<nat>)
      reads this`handles
    {
      forall pid | Live(t, pid) && pid != self && Reachable(t, roots, pid) :: LiveHandle(t, pid)
    }

    lemma NothingMissingIsComplete(t: Table, roots: set<nat>, owned: set<nat>)
      requires Owned(owned, t, roots) && (forall pid | pid in t :: !Missing(owned, t, pid)) && NoStale(t)
      ensures Complete(t, roots)
    {
      forall pid | Live(t, pid) && pid != self && Reachable(t, roots, pid) ensures LiveHandle(t, pid) {
        var n: nat :| ReachableIn(t, roots, pid, n);
        forall p | Live(t, p) && t[p].ppid in owned ensures p in owned {
          assert !Missing(owned, t, p);
        }
        ClosedHoldsReachable(t, roots, owned, pid, n);
      }
    }

    /** `_scan`.  When the listing fails nothing changes.  Otherwise it keeps live handles, drops
        stale ones, and adds only live processes that are reachable from the supervisor or a live
        handle of the table it read.  On a table that stays as it is and without stale handles it
        misses none of them. */
    method Scan(ghost t: Table) returns (ok: bool, ghost table: Table)
      modifies this`clock, this`handles
      ensures clock >= old(clock) && (ok <==> listing(old(clock)).Some?)
      ensures !ok ==> handles == old(handles)
      ensures ok ==> NoStale(table) && forall pid | old(LiveHandle(table, pid)) :: LiveHandle(table, pid)
      ensures ok ==> forall pid | pid in handles ::
                (pid in old(handles) && handles[pid] == old(handles)[pid]) || (LiveHandle(table, pid) && Reachable(table, old(Roots(table)), pid))
      ensures old(Stable(t)) ==> ok && Stable(t) && table == t
      ensures old(Stable(t) && NoStale(t)) ==> Complete(t, old(Roots(t)))
      ensures old(Deserted()) ==> Deserted() && clock == old(clock) + 2
    {
      var read, pids;
      ok, read, pids := ReadTable(t);
      table := read;
      if !ok {
        return;
      }
      TakeReachable(read, pids, t);
      ghost var grown := handles;
      if old(Stable(t) && NoStale(t)) {
        ghost var owned :| Owned(owned, t, old(Roots(t))) && forall pid | pid in t :: !Missing(owned, t, pid);
        NothingMissingIsComplete(t, old(Roots(t)), owned);
      }
      CloseStale(read);
      assert old(Deserted()) ==> handles == map[];
    }

    /** Two scans of a table that stays as it is: the first flushes what is stale, the second
        finds every live process reachable from the supervisor or from a live handle. */
    method ScanTwice(ghost t: Table)
      requires Stable(t)
      modifies this`clock, this`handles
      ensures clock >= old(clock) && Stable(t) && NoStale(t)
      ensures forall pid | pid != self :: LiveHandle(t, pid) <==> Live(t, pid) && Reachable(t, old(Roots(t)), pid)
    {
      ghost var roots := Roots(t);
      RootsAreOwned(t);
      var _, _ := Scan(t);
      ghost var between := Roots(t);
      forall pid | pid in between ensures Reachable(t, roots, pid) {}
      var _, _ := Scan(t);
      RootsReachTheSame(t, roots, between);
    }

    lemma RootsReachTheSame(t: Table, roots: set<nat>, more: set<nat>)
      requires roots <= more && forall pid | pid in more :: Reachable(t, roots, pid)
      ensures forall pid :: Reachable(t, more, pid) <==> Reachable(t, roots, pid)
    {
      forall pid ensures Reachable(t, more, pid) <==> Reachable(t, roots, pid) {
        if Reachable(t, more, pid) {
          var n: nat :| ReachableIn(t, more, pid, n);
          ReachableRootsAddNothing(t, roots, more, pid, n);
        }
        if Reachable(t, roots, pid) {
          var n: nat :| ReachableIn(t, roots, pid, n);
          MoreRootsReachMore(t, roots, more, pid, n);
        }
      }
    }

    /* ---------- Waiting and signalling ---------- */

    /** The wait at this time returns the root, and nobody else. */
    ghost predicate ReapsRoot(k: nat)
      reads this`rootPid
    {
      rootPid.Some? && |reaps(k)| == 1 && reaps(k)[0].pid == rootPid.value
    }

    /** `_reap`: the root's exit status is kept, once; reaped processes lose their handles. */
    method Reap()
      modifies this`clock, this`handles, this`rootStatus
      ensures clock == old(clock) + 1
      ensures forall pid | pid in handles :: pid in old(handles) && handles[pid] == old(handles)[pid]
      ensures forall pid | pid in old(handles) :: pid in handles || exists r :: r in reaps(old(clock)) && r.pid == pid
      ensures old(rootStatus).Some? ==> rootStatus == old(rootStatus)
      ensures rootStatus.Some? && old(rootStatus).None? ==>
                rootPid.Some? && Reaped(rootPid.value, rootStatus.value) in reaps(old(clock))
      ensures reaps(old(clock)) == [] ==> rootStatus == old(rootStatus)
      ensures ReapsRoot(old(clock)) && old(rootStatus).None? ==> rootStatus == Some(reaps(old(clock))[0].exitCode)
    {
      var reaped := reaps(clock);
      clock := clock + 1;
      for i := 0 to |reaped|
        invariant clock == old(clock) + 1
        invariant forall pid | pid in handles :: pid in old(handles) && handles[pid] == old(handles)[pid]
        invariant forall pid | pid in old(handles) :: pid in handles || exists k :: 0 <= k < i && reaped[k].pid == pid
        invariant old(rootStatus).Some? || i == 0 ==> rootStatus == old(rootStatus)
        invariant rootStatus.Some? && old(rootStatus).None? ==> rootPid.Some? && Reaped(rootPid.value, rootStatus.value) in reaped
        invariant ReapsRoot(old(clock)) && old(rootStatus).None? && i > 0 ==> rootStatus == Some(reaped[0].exitCode)
      {
        if rootPid == Some(reaped[i].pid) && rootStatus.None? {
          rootStatus := Some(reaped[i].exitCode);
          assert reaped[i] in reaped;
        }
        handles := handles - {reaped[i].pid};
      }
    }

    /** The new signals went to processes whose live identity had just matched their handle. */
    ghost predicate SignalsMatch(before: seq<Signalled>, signum: nat, from: nat)
      reads this`signalled, this`handles, this`clock
    {
      && before <= signalled
      && forall i | |before| <= i < |signalled| ::
           && signalled[i].signum == signum && signalled[i].pid in handles && handles[signalled[i].pid] == signalled[i].start
           && SeenAlive(signalled[i].pid, signalled[i].start, from)
    }

    /** This process got a signal since `before`. */
    ghost predicate Got(before: seq<Signalled>, pid: nat)
      reads this`signalled
    {
      exists i :: |before| <= i < |signalled| && signalled[i].pid == pid
    }

    /** Nobody got two of the new signals. */
    ghost predicate AtMostOnce(before: seq<Signalled>)
      reads this`signalled
    {
      forall i, j | |before| <= i < j < |signalled| :: signalled[i].pid != signalled[j].pid
    }

    method SendOne(pid: nat, signum: nat, ghost before: seq<Signalled>, ghost from: nat, ghost t: Table)
      requires pid in handles && from <= clock && SignalsMatch(before, signum, from)
      modifies this`clock, this`signalled
      ensures clock >= old(clock) && SignalsMatch(before, signum, from)
      ensures signalled == old(signalled) || signalled == old(signalled) + [Signalled(pid, handles[pid], signum)]
      ensures old(Stable(t)) ==> Stable(t) && (LiveHandle(t, pid) ==> Got(before, pid))
      ensures forall p: nat | old(Got(before, p)) :: Got(before, p)
    {
      var info := Identity(pid);
      assert info.Some? ==> observe(old(clock))[pid] == info.value;
      if info.Some? && !info.value.zombie && info.value.start == handles[pid] {
        signalled := signalled + [Signalled(pid, handles[pid], signum)];
        assert SeenAlive(pid, handles[pid], from);
        assert signalled[|signalled| - 1].pid == pid;
      }
      ghost var was := old(signalled);
      forall p: nat | old(Got(before, p)) ensures Got(before, p) {
        var i :| |before| <= i < |was| && was[i].pid == p;
        assert signalled[i].pid == p;
      }
    }

    /** `_send`: every live handle exactly once, the root last. */
    method Send(signum: nat, ghost t: Table)
      modifies this`clock, this`signalled
      ensures clock >= old(clock) && SignalsMatch(old(signalled), signum, old(clock))
      ensures AtMostOnce(old(signalled))
      ensures forall i | |old(signalled)| <= i < |signalled| - 1 :: rootPid != Some(signalled[i].pid)
      ensures old(Stable(t)) ==> Stable(t) && forall pid | LiveHandle(t, pid) :: Got(old(signalled), pid)
      ensures handles == map[] ==> clock == old(clock)
    {
      ghost var base := signalled;
      var todo := if rootPid.Some? then handles.Keys - {rootPid.value} else handles.Keys;
      while todo != {}
        invariant todo <= handles.Keys && clock >= old(clock) && SignalsMatch(base, signum, old(clock))
        invariant handles == map[] ==> clock == old(clock)
        invariant rootPid.Some? ==> rootPid.value !in todo
        invariant AtMostOnce(base)
        invariant forall i | |base| <= i < |signalled| :: rootPid != Some(signalled[i].pid) && signalled[i].pid !in todo
        invariant old(Stable(t)) ==>
                    Stable(t) && forall pid: nat | LiveHandle(t, pid) && pid !in todo && rootPid != Some(pid) :: Got(base, pid)
        decreases todo
      {
        var pid :| pid in todo;
        SendOne(pid, signum, base, old(clock), t);
        todo := todo - {pid};
      }
      if rootPid.Some? && rootPid.value in handles {
        SendOne(rootPid.value, signum, base, old(clock), t);
      }
    }

    /* ---------- Emptiness ---------- */

    /** Nothing of the supervised tree is alive, and the supervisor has no children. */
    ghost predicate NothingLeft(t: Table, roots: set<nat>) {
      && (forall pid | Live(t, pid) && pid != self :: !Reachable(t, roots, pid))
      && (forall pid | pid in t :: t[pid].ppid != self)
    }

    /** The kernel listed no child at this observation. */
    predicate NoChildren(k: nat) {
      children(k).Some? && |children(k).value| == 0
    }

    lemma NothingIsLeft(t: Table, roots: set<nat>, k: nat)
      requires Complete(t, roots) && forall pid: nat :: !LiveHandle(t, pid)
      requires NoChildren(k) && forall pid :: pid in children(k).value <==> pid in t && t[pid].ppid == self
      ensures NothingLeft(t, roots)
    {
    }

    method AnyHandleAlive(ghost t: Table) returns (alive: bool)
      modifies this`clock
      ensures clock >= old(clock)
      ensures old(Stable(t)) ==> Stable(t) && (!alive ==> forall pid: nat :: !LiveHandle(t, pid))
      ensures handles == map[] ==> !alive && clock == old(clock)
    {
      var todo := handles.Keys;
      while todo != {}
        invariant todo <= handles.Keys && clock >= old(clock)
        invariant handles == map[] ==> clock == old(clock)
        invariant old(Stable(t)) ==> Stable(t) && forall pid: nat | pid in handles && pid !in todo :: !LiveHandle(t, pid)
        decreases todo
      {
        var pid :| pid in todo;
        todo := todo - {pid};
        var info := Identity(pid);
        if info.Some? && !info.value.zombie && info.value.start == handles[pid] {
          return true;
        }
      }
      alive := false;
    }

    twostate lemma DesertedAfterReap()
      requires clock == old(clock) + 1 && handles.Keys <= old(handles).Keys
      ensures old(Deserted()) ==> Deserted()
    {
    }

    method ReapAndScan(ghost t: Table)
      modifies this`clock, this`handles, this`rootStatus
      ensures clock > old(clock)
      ensures old(rootStatus).Some? ==> rootStatus == old(rootStatus)
      ensures rootStatus.Some? && old(rootStatus).None? ==> rootPid.Some?
      ensures old(Stable(t)) ==> Stable(t) && NoStale(t)
      ensures old(Stable(t) && NoStale(t)) ==> Complete(t, old(Roots(t)))
      ensures old(Deserted()) ==> Deserted() && clock == old(clock) + 3
    {
      ghost var roots := Roots(t);
      Reap();
      DesertedAfterReap();
      assert old(Stable(t)) ==> Roots(t) == roots by {
        if old(Stable(t)) {
          assert forall pid: nat :: pid in handles <==> pid in old(handles);
        }
      }
      var _, _ := Scan(t);
    }

    /** `_children_empty`: no handle is alive and the kernel lists no child. */
    method ChildrenEmpty(ghost t: Table) returns (empty: bool)
      modifies this`clock, this`handles, this`rootStatus, this`emptyAt
      ensures clock > old(clock)
      ensures old(rootStatus).Some? ==> rootStatus == old(rootStatus)
      ensures rootStatus.Some? && old(rootStatus).None? ==> rootPid.Some?
      ensures empty ==> emptyAt == Some(clock) && clock > 0 && NoChildren(clock - 1)
      ensures !empty ==> emptyAt == old(emptyAt)
      ensures old(Stable(t)) ==> Stable(t) && NoStale(t)
      ensures old(Stable(t) && NoStale(t)) && empty ==> NothingLeft(t, old(Roots(t)))
      ensures old(Deserted()) ==> Deserted() && empty && clock == old(clock) + 4
    {
      ghost var roots := Roots(t);
      ReapAndScan(t);
      empty := NothingAlive(t, roots);
    }

    method NothingAlive(ghost t: Table, ghost roots: set<nat>) returns (empty: bool)
      modifies this`clock, this`emptyAt
      ensures clock > old(clock) || (!empty && clock == old(clock))
      ensures empty ==> emptyAt == Some(clock) && clock > 0 && NoChildren(clock - 1)
      ensures !empty ==> emptyAt == old(emptyAt)
      ensures old(Stable(t)) ==> Stable(t)
      ensures empty && old(Stable(t)) && Complete(t, roots) ==> NothingLeft(t, roots)
      ensures old(Deserted()) ==> empty && clock == old(clock) + 1
    {
      assert old(Deserted()) ==> AloneAt(clock);
      var alive := AnyHandleAlive(t);
      if alive {
        return false;
      }
      empty := ListsNoChild();
      if empty && old(Stable(t)) && Complete(t, roots) {
        NothingIsLeft(t, roots, clock - 1);
      }
    }

    method ListsNoChild() returns (empty: bool)
      modifies this`clock, this`emptyAt
      ensures clock == old(clock) + 1 && empty == NoChildren(clock - 1)
      ensures emptyAt == if empty then Some(clock) else old(emptyAt)
    {
      empty := NoChildren(clock);
      clock := clock + 1;
      if empty {
        emptyAt := Some(clock);
      }
    }

    /* ---------- Draining ---------- */

    method Sleep()
      modifies this`clock
      ensures clock == old(clock) + 1
    {
      clock := clock + 1;
    }

    ghost predicate EmptyNow()
      reads this`clock, this`emptyAt
    {
      emptyAt == Some(clock) && clock > 0 && NoChildren(clock - 1)
    }

    method Poll(signum: nat) returns (drained: bool)
      modifies this`clock, this`handles, this`rootStatus, this`signalled, this`emptyAt
      ensures clock >= old(clock) && (drained ==> EmptyNow())
      ensures old(rootStatus).Some? ==> rootStatus == old(rootStatus)
      ensures ReapsRoot(old(clock)) && old(rootStatus).None? ==> rootStatus == Some(reaps(old(clock))[0].exitCode)
      ensures old(Deserted()) ==> Deserted() && drained && clock == old(clock) + 7
    {
      ReapRound(signum);
      drained := ChildrenEmpty(map[]);
    }

    method ReapRound(signum: nat)
      modifies this`clock, this`handles, this`rootStatus, this`signalled
      ensures clock >= old(clock)
      ensures old(rootStatus).Some? ==> rootStatus == old(rootStatus)
      ensures ReapsRoot(old(clock)) && old(rootStatus).None? ==> rootStatus == Some(reaps(old(clock))[0].exitCode)
      ensures old(Deserted()) ==> Deserted() && clock == old(clock) + 3
    {
      Reap();
      DesertedAfterReap();
      Rescan();
      Send(signum, map[]);
    }

    method Rescan()
      modifies this`clock, this`handles
      ensures clock >= old(clock)
      ensures old(Deserted()) ==> Deserted() && clock == old(clock) + 2
    {
      var _, _ := Scan(map[]);
    }

    /** Signals for at most `rounds` polls, until the tree is observed empty. */
    method DrainWith(signum: nat, rounds: nat) returns (drained: bool)
      modifies this`clock, this`handles, this`rootStatus, this`signalled, this`emptyAt
      ensures clock >= old(clock) && (drained ==> EmptyNow())
      ensures old(rootStatus).Some? ==> rootStatus == old(rootStatus)
      ensures rounds > 0 && ReapsRoot(old(clock)) && old(rootStatus).None? ==> rootStatus == Some(reaps(old(clock))[0].exitCode)
      ensures rounds > 0 && old(Deserted()) ==> Deserted() && drained && clock == old(clock) + 7
    {
      for round := 0 to rounds
        invariant clock >= old(clock)
        invariant old(rootStatus).Some? ==> rootStatus == old(rootStatus)
        invariant round == 0 ==> clock == old(clock) && rootStatus == old(rootStatus) && handles == old(handles)
        invariant round > 0 && ReapsRoot(old(clock)) && old(rootStatus).None? ==> rootStatus == Some(reaps(old(clock))[0].exitCode)
        invariant round > 0 ==> !old(Deserted())
      {
        drained := Poll(signum);
        if drained {
          return;
        }
        Sleep();
      }
      drained := false;
    }

    /** `_drain`: asks, then kills; true only right after the tree was observed empty. */
    method Drain(rounds: nat) returns (drained: bool)
      modifies this`clock, this`handles, this`rootStatus, this`signalled, this`emptyAt
      ensures clock >= old(clock) && (drained ==> EmptyNow())
      ensures old(rootStatus).Some? ==> rootStatus == old(rootStatus)
      ensures rounds > 0 && ReapsRoot(old(clock)) && old(rootStatus).None? ==> rootStatus == Some(reaps(old(clock))[0].exitCode)
      ensures rounds > 0 && old(Deserted()) ==> Deserted() && drained && clock == old(clock) + 7
    {
      drained := DrainWith(SIGTERM, rounds);
      if !drained {
        drained := DrainWith(SIGKILL, rounds);
      }
    }

    /* ---------- Completion ---------- */

    function Frame(status: nat): string {
      "SOC_GUI_COMPLETE " + nonce + " " + Decimal(status) + "\n"
    }

    /** Writes a whole text in pieces; an error leaves a prefix of it. */
    method WriteAll(text: string) returns (ok: bool)
      modifies this`output, this`clock
      ensures ok ==> output == old(output) + text
      ensures !ok ==> exists n | 0 <= n <= |text| :: output == old(output) + text[..n]
      ensures old(clock) <= clock <= old(clock) + |text|
      ensures text != "" && writes(old(clock)).Some? && writes(old(clock)).value >= |text| ==> ok && clock == old(clock) + 1
    {
      var offset := 0;
      assert text[..0] == "";
      while offset < |text|
        invariant 0 <= offset <= |text| && output == old(output) + text[..offset]
        invariant old(clock) <= clock <= old(clock) + offset
        invariant offset == 0 ==> clock == old(clock)
        invariant writes(old(clock)).Some? && writes(old(clock)).value >= |text| && offset > 0 ==> offset == |text| && clock == old(clock) + 1
      {
        var written := writes(clock);
        clock := clock + 1;
        if written.None? || written.value == 0 {
          return false;
        }
        var count := if written.value < |text| - offset then written.value else |text| - offset;
        assert text[..offset + count] == text[..offset] + text[offset..offset + count];
        output := output + text[offset..offset + count];
        offset := offset + count;
      }
      assert text[..offset] == text;
      ok := true;
    }

    /** What was written so far was begun right after the tree was observed empty: there is only
        room for the writes since. */
    ghost predicate BegunOverEmpty(status: nat)
      reads this`clock, this`emptyAt
    {
      && emptyAt.Some? && 0 < emptyAt.value <= clock <= emptyAt.value + |Frame(status)|
      && NoChildren(emptyAt.value - 1)
    }

    /** The frame fits, and a write at this time takes all of it. */
    ghost predicate Writable(status: nat, k: nat) {
      |Frame(status)| <= MAX_FRAME_BYTES && writes(k).Some? && writes(k).value >= |Frame(status)|
    }

    /** `_write_completion`: at most one whole frame is ever written, and a frame is begun only
        right after the tree was observed empty. */
    method WriteCompletion(status: nat) returns (ok: bool)
      modifies this`clock, this`handles, this`rootStatus, this`emptyAt, this`output, this`completionWritten
      ensures ok ==> !old(completionWritten) && completionWritten && output == old(output) + Frame(status)
      ensures !ok ==> completionWritten == old(completionWritten)
      ensures !ok ==> exists n | 0 <= n <= |Frame(status)| :: output == old(output) + Frame(status)[..n]
      ensures output != old(output) ==> BegunOverEmpty(status) && !old(completionWritten)
      ensures old(rootStatus).Some? ==> rootStatus == old(rootStatus)
      ensures rootStatus.Some? && old(rootStatus).None? ==> rootPid.Some?
      ensures clock >= old(clock)
      ensures old(Deserted()) && !old(completionWritten) && Writable(status, old(clock) + 4) ==> ok && clock == old(clock) + 5
    {
      assert Frame(status)[..0] == "";
      if completionWritten {
        return false;
      }
      var empty := ChildrenEmpty(map[]);
      if !empty {
        return false;
      }
      ok := WriteFrame(status);
    }

    method WriteFrame(status: nat) returns (ok: bool)
      modifies this`clock, this`output, this`completionWritten
      ensures ok ==> completionWritten && output == old(output) + Frame(status)
      ensures !ok ==> completionWritten == old(completionWritten)
      ensures !ok ==> exists n | 0 <= n <= |Frame(status)| :: output == old(output) + Frame(status)[..n]
      ensures old(clock) <= clock <= old(clock) + |Frame(status)|
      ensures Writable(status, old(clock)) ==> ok && clock == old(clock) + 1
    {
      assert Frame(status)[..0] == "";
      if |Frame(status)| > MAX_FRAME_BYTES {
        return false;
      }
      ok := WriteAll(Frame(status));
      if ok {
        completionWritten := true;
      }
    }

    /** The status that a frame reports. */
    function Reported(signal: Option<nat>, status: nat): nat {
      if signal.Some? then SIGNAL_BASE + signal.value else status
    }

    /** The frame's status was picked after `from`, and a signal that came by then decided it.  A
        pending signal was overlooked exactly when the first one came while the frame was being
        written. */
    ghost predicate PickedFrom(from: nat)
      reads this`clock, this`picked
    {
      && picked.Some? && from <= picked.value.at <= clock
      && (FirstSignal(picked.value.at).Some? ==> Pending() == FirstSignal(picked.value.at))
      && (FirstSignal(picked.value.at).None? ==> (Pending().Some? <==> exists k | picked.value.at <= k < clock :: arrivals(k).Some?))
    }

    /** `_finish`: a signal that came before the status was picked overrides it; none for a raised
        error. */
    method Finish(status: nat) returns (r: Option<nat>)
      modifies this`clock, this`handles, this`rootStatus, this`emptyAt, this`output, this`completionWritten, this`picked
      ensures PickedFrom(old(clock)) && picked.value == Picked(old(clock), old(rootStatus))
      ensures r.Some? ==> r.value == Reported(FirstSignal(picked.value.at), status)
      ensures r.Some? ==> !old(completionWritten) && completionWritten && output == old(output) + Frame(r.value)
      ensures r.None? ==> completionWritten == old(completionWritten)
      ensures output != old(output) ==> BegunOverEmpty(Reported(FirstSignal(picked.value.at), status)) && !old(completionWritten)
      ensures old(Deserted()) && !old(completionWritten) && Writable(Reported(FirstSignal(old(clock)), status), old(clock) + 4) ==>
                r.Some? && clock == old(clock) + 5
      ensures old(rootStatus).Some? ==> rootStatus == old(rootStatus)
      ensures rootStatus.Some? && old(rootStatus).None? ==> rootPid.Some?
    {
      picked := Some(Picked(clock, rootStatus));
      var reported := Reported(Pending(), status);
      var ok := WriteCompletion(reported);
      r := if ok then Some(reported) else None;
      FirstSignalIs(old(clock), clock);
    }

    /* ---------- The run ---------- */

    /** The status a finished root stands for. */
    function StatusOf(exitCode: int): nat {
      if exitCode < 0 then SIGNAL_BASE - exitCode else if exitCode <= 255 then exitCode else EXIT_INTERNAL
    }

    /** The root exits before it can be bound, the supervisor is left alone, and its frame can be written. */
    ghost predicate ExitsAtOnce(pid: nat)
      reads this`clock
    {
      && pid in observe(clock) && pid in observe(clock + 1) && observe(clock + 1)[pid].zombie
      && AloneFrom(clock + 2)
      && |reaps(clock + 2)| == 1 && reaps(clock + 2)[0].pid == pid
      && Writable(Reported(FirstSignal(clock + 9), StatusOf(reaps(clock + 2)[0].exitCode)), clock + 13)
    }

    /** The root has exited and nothing else is left; the wait is about to return it, and its
        frame can be written. */
    ghost predicate Exited()
      reads this`clock, this`handles, this`rootPid, this`rootStatus
    {
      && Deserted() && ReapsRoot(clock) && rootStatus.None?
      && Writable(Reported(FirstSignal(clock + 7), StatusOf(reaps(clock)[0].exitCode)), clock + 11)
    }

    /** Binds the root; false when it could not be bound, none when the launch raised. */
    method Spawn(launched: Option<nat>) returns (bound: Option<bool>)
      modifies this`clock, this`handles, this`rootPid
      ensures launched.None? ==> bound == None && rootPid == old(rootPid)
      ensures launched.Some? ==> bound.Some? && rootPid == launched
      ensures launched.Some? && old(ExitsAtOnce(launched.value)) && old(handles) == map[] && rootStatus.None? ==>
                bound == Some(false) && Exited() && clock == old(clock) + 2
    {
      if launched.None? {
        return None;
      }
      rootPid := launched;
      var info := Identity(launched.value);
      if info.None? {
        return Some(false);
      }
      var acquired := Acquire(launched.value, info.value.start, map[]);
      bound := Some(acquired);
    }

    /** Polls until the root has exited, a signal is pending, or the deadline has passed. */
    method Watch(timeout: nat) returns (timedOut: bool)
      modifies this`clock, this`handles, this`rootStatus
      ensures !timedOut ==> rootStatus.Some? || Pending().Some?
      ensures old(rootStatus).Some? ==> rootStatus == old(rootStatus)
    {
      for tick := 0 to timeout + 1
        invariant old(rootStatus).Some? ==> rootStatus == old(rootStatus)
      {
        if rootStatus.Some? || Pending().Some? {
          return false;
        }
        Reap();
        Rescan();
        if rootStatus.Some? {
          return false;
        }
        Sleep();
      }
      timedOut := true;
    }

    /** The status of a run that reaches its frame. */
    function RunStatus(signal: Option<nat>, timedOut: bool, root: Option<int>, hadLeftovers: bool): nat {
      Reported(signal,
               if timedOut then EXIT_TIMEOUT
               else if root.None? || (hadLeftovers && root == Some(0)) then EXIT_INTERNAL
               else StatusOf(root.value))
    }

    /** What a run leaves: no frame and an internal error, or one frame with the status that the
        signal, the root and the clock stood for when it was picked. */
    ghost predicate Outcome(before: string, r: Option<nat>, timedOut: bool, hadLeftovers: bool)
      reads this`output, this`completionWritten, this`clock, this`picked, this`rootStatus
    {
      && (r.Some? && !completionWritten ==> output == before && r.value == EXIT_INTERNAL)
      && (r.None? ==> !completionWritten)
      && (completionWritten ==>
            && PickedFrom(0) && output == before + Frame(r.value)
            && r.value == RunStatus(FirstSignal(picked.value.at), timedOut, picked.value.root, hadLeftovers)
            && (picked.value.root.Some? ==> rootStatus == picked.value.root))
    }

    /** The frame was written by the first write of a run that began to drain at `from`. */
    ghost predicate Completed(from: nat)
      reads this`completionWritten, this`picked, this`clock
    {
      && |reaps(from)| == 1 && completionWritten && picked == Some(Picked(from + 7, Some(reaps(from)[0].exitCode)))
      && clock == from + 12
    }

    /** After a root that could not be bound. */
    method RunUnbound(rounds: nat) returns (r: Option<nat>)
      requires !completionWritten
      modifies this`clock, this`handles, this`rootStatus, this`signalled, this`emptyAt, this`output
      modifies this`completionWritten, this`picked
      ensures Outcome(old(output), r, false, false)
      ensures rounds > 0 && old(Exited()) ==> Completed(old(clock))
    {
      var drained := Drain(rounds);
      if !drained {
        return Some(EXIT_INTERNAL);
      }
      r := Finish(if rootStatus.None? then EXIT_INTERNAL else StatusOf(rootStatus.value));
    }

    /** Drains what is left and picks the status. */
    method Conclude(timedOut: bool, hadLeftovers: bool, rounds: nat) returns (r: Option<nat>)
      requires !completionWritten
      modifies this`clock, this`handles, this`rootStatus, this`signalled, this`emptyAt, this`output
      modifies this`completionWritten, this`picked
      ensures Outcome(old(output), r, timedOut, hadLeftovers)
    {
      if timedOut || Pending().Some? || hadLeftovers {
        var drained := Drain(rounds);
        if !drained {
          return Some(EXIT_INTERNAL);
        }
      }
      if Pending().Some? {
        r := Finish(SIGNAL_BASE + Pending().value);
      } else if timedOut {
        r := Finish(EXIT_TIMEOUT);
      } else if rootStatus.None? {
        r := Some(EXIT_INTERNAL);
      } else if hadLeftovers && rootStatus == Some(0) {
        r := Finish(EXIT_INTERNAL);
      } else {
        r := Finish(StatusOf(rootStatus.value));
      }
    }

    /** Waits for the run's end, and looks whether anything is left of it. */
    method Settle(timeout: nat) returns (timedOut: bool, hadLeftovers: bool)
      modifies this`clock, this`handles, this`rootStatus, this`emptyAt
      ensures old(rootStatus).Some? ==> rootStatus == old(rootStatus)
      ensures !timedOut ==> rootStatus.Some? || Pending().Some?
      ensures !hadLeftovers ==> EmptyNow()
    {
      timedOut := Watch(timeout);
      ghost var watched := clock;
      Reap();
      Rescan();
      var empty := ChildrenEmpty(map[]);
      hadLeftovers := !empty;
      FirstSignalIs(watched, clock);
    }

    /** After a launch that raised. */
    method RunUnlaunched() returns (r: Option<nat>)
      requires !completionWritten && rootStatus == None
      modifies this`clock, this`handles, this`rootStatus, this`emptyAt, this`output, this`completionWritten, this`picked
      ensures Outcome(old(output), r, false, false)
    {
      r := Finish(EXIT_INTERNAL);
    }

    /** After a root that was bound. */
    method RunBound(timeout: nat, rounds: nat) returns (r: Option<nat>, timedOut: bool, hadLeftovers: bool)
      requires !completionWritten
      modifies this`clock, this`handles, this`rootStatus, this`signalled, this`emptyAt, this`output
      modifies this`completionWritten, this`picked
      ensures Outcome(old(output), r, timedOut, hadLeftovers)
    {
      timedOut, hadLeftovers := Settle(timeout);
      r := Conclude(timedOut, hadLeftovers, rounds);
    }

    /** `run`.  A frame has exactly the status that `RunStatus` gives for what was known when it was
        picked; no frame goes with an internal error. */
    method Run(launched: Option<nat>, timeout: nat, rounds: nat) returns (r: Option<nat>, timedOut: bool, hadLeftovers: bool)
      requires !completionWritten && rootPid == None && rootStatus == None && handles == map[]
      modifies this
      ensures Outcome(old(output), r, timedOut, hadLeftovers)
      ensures rounds > 0 && launched.Some? && old(ExitsAtOnce(launched.value)) ==> Completed(old(clock) + 2) && !timedOut && !hadLeftovers
    {
      timedOut, hadLeftovers := false, false;
      var bound := Spawn(launched);
      if bound.None? {
        r := RunUnlaunched();
      } else if bound.value {
        r, timedOut, hadLeftovers := RunBound(timeout, rounds);
      } else {
        r := RunUnbound(rounds);
      }
    }

    /** After a run that raised. */
    method Rescue(rounds: nat) returns (status: nat)
      requires !completionWritten
      modifies this`clock, this`handles, this`rootStatus, this`signalled, this`emptyAt, this`output
      modifies this`completionWritten, this`picked
      ensures status != 0 && (completionWritten ==> PickedFrom(0) && output == old(output) + Frame(status))
    {
      var drained := Drain(rounds);
      if drained {
        var r := Finish(EXIT_INTERNAL);
        if r.Some? {
          return r.value;
        }
      }
      status := EXIT_INTERNAL;
    }

    /** The process's exit status: a run that raised is drained and reported as internal.  Status 0
        stands exactly for the root's exit 0, in time, with nothing left behind, reported by a whole
        frame, and for no signal before the status was picked.  A signal that arrives later, while
        the frame is written, is lost. */
    method Supervise(launched: Option<nat>, timeout: nat, rounds: nat)
      returns (status: nat, raised: bool, timedOut: bool, hadLeftovers: bool)
      requires !completionWritten && rootPid == None && rootStatus == None && handles == map[]
      modifies this
      ensures status == 0 <==>
                && completionWritten && !raised && !timedOut && !hadLeftovers
                && picked.Some? && picked.value.root == Some(0) && FirstSignal(picked.value.at) == None
      ensures status == 0 ==> output == old(output) + Frame(0) && rootStatus == Some(0)
      ensures completionWritten ==> PickedFrom(0) && exists before :: output == before + Frame(status)
      ensures rounds > 0 && launched.Some? && old(ExitsAtOnce(launched.value)) ==>
                Completed(old(clock) + 2) && !raised && !timedOut && !hadLeftovers
    {
      var r;
      r, timedOut, hadLeftovers := Run(launched, timeout, rounds);
      raised := r.None?;
      if raised {
        status := Rescue(rounds);
      } else {
        status := r.value;
      }
    }
  }

  const EXAMPLE_INIT := Info(false, 1, 5)
  const EXAMPLE_ROOT := Info(true, 1000, 7)

  function ExampleTable(k: nat): Table {
    if k < 2 then map[1000 := EXAMPLE_INIT, 1001 := EXAMPLE_ROOT] else map[1000 := EXAMPLE_INIT]
  }

  /** The wait at time 2 returns the root, and a signal arrives at time 12. */
  method ExampleSupervisor(nonce: string, signum: nat) returns (supervisor: Supervisor)
    ensures supervisor.clock == 0 && supervisor.handles == map[] && supervisor.rootPid == None && supervisor.rootStatus == None
    ensures fresh(supervisor) && !supervisor.completionWritten && supervisor.nonce == nonce && supervisor.self == 1000
    ensures forall k :: supervisor.arrivals(k) == if k == 12 then Some(signum) else None
    ensures forall k :: supervisor.observe(k) == ExampleTable(k) && supervisor.listing(k) == Some([1000]) && supervisor.children(k) == Some([])
    ensures supervisor.reaps(2) == [Reaped(1001, 0)] && supervisor.writes(13) == Some(MAX_FRAME_BYTES)
  {
    supervisor := new Supervisor(1000, nonce, ExampleTable, _ => Some([1000]),
      k => if k == 2 then [Reaped(1001, 0)] else [], _ => Some([]), k => if k == 12 then Some(signum) else None, _ => Some(MAX_FRAME_BYTES));
  }

  lemma OneArrival(supervisor: Supervisor, signum: nat)
    requires forall k :: supervisor.arrivals(k) == if k == 12 then Some(signum) else None
    ensures supervisor.FirstSignal(9) == None && supervisor.FirstSignal(14) == Some(signum)
  {
    supervisor.FirstSignalIs(0, 9);
    supervisor.FirstSignalIs(0, 12);
    supervisor.FirstSignalIs(13, 14);
  }

  lemma ExampleExitsAtOnce(supervisor: Supervisor)
    requires supervisor.clock == 0 && supervisor.self == 1000 && |supervisor.nonce| <= 64
    requires forall k :: supervisor.observe(k) == ExampleTable(k) && supervisor.listing(k) == Some([1000]) && supervisor.children(k) == Some([])
    requires supervisor.reaps(2) == [Reaped(1001, 0)] && supervisor.writes(13) == Some(MAX_FRAME_BYTES)
    requires supervisor.FirstSignal(9) == None
    ensures supervisor.ExitsAtOnce(1001)
  {
    assert |supervisor.Frame(0)| == 20 + |supervisor.nonce|;
    assert supervisor.AloneFrom(2);
  }

  /** A root that exits 0 at once, and a signal that arrives while its frame is being written: the
      status is 0 all the same. */
  method LostSignalExample(nonce: string, signum: nat) returns (supervisor: Supervisor, status: nat)
    requires |nonce| <= 64
    ensures status == 0 && supervisor.Pending() == Some(signum)
  {
    supervisor := ExampleSupervisor(nonce, signum);
    OneArrival(supervisor, signum);
    ExampleExitsAtOnce(supervisor);
    var raised, timedOut, hadLeftovers;
    status, raised, timedOut, hadLeftovers := supervisor.Supervise(Some(1001), 1, 1);
    assert supervisor.Completed(2);
  }
}
