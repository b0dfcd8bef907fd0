/** The process table a subreaper works against.

    Every call the supervisor makes first lets the environment run: children
    spawn, exit, are adopted by the subreaper when their parent dies, and process
    numbers return to use once a process has been reaped.  `schedule` and `faults`
    fix what the environment does before each call and which calls fail; nothing
    is assumed about either, so a contract holds for every interleaving. */
module Kernel {
  type Pid = nat

  /** A process for its whole life: the number alone is reused after a reap. */
  datatype Identity = Identity(pid: Pid, start: nat)

  datatype Process = Process(start: nat, parent: Pid, zombie: bool)

  /** `me` is the supervisor, which is not itself in the table of its descendants. */
  datatype World = World(me: Pid, procs: map<Pid, Process>, nextStart: nat, now: nat)

  datatype Event =
    | Spawn(parent: Pid, child: Pid)
    | Exit(pid: Pid)
    | ReapedByParent(pid: Pid)
    | Tick

  predicate Alive(w: World, p: Pid) {
    p in w.procs && !w.procs[p].zombie
  }

  /** An unreaped child of the supervisor, running or zombie. */
  predicate Direct(w: World, p: Pid) {
    p in w.procs && w.procs[p].parent == w.me
  }

  function DirectChildren(w: World): set<Pid> {
    set p | p in w.procs && w.procs[p].parent == w.me
  }

  /** What the environment does by itself.  An event that cannot happen has no effect. */
  function Apply(w: World, e: Event): World {
    match e
    case Spawn(parent, child) =>
      if Alive(w, parent) && child !in w.procs && child != w.me
      then w.(procs := w.procs[child := Process(w.nextStart, parent, false)], nextStart := w.nextStart + 1)
      else w
    case Exit(pid) =>
      if Alive(w, pid)
      then w.(procs := map p | p in w.procs ::
          var parent := if w.procs[p].parent == pid then w.me else w.procs[p].parent;
          Process(w.procs[p].start, parent, w.procs[p].zombie || p == pid))
      else w
    case ReapedByParent(pid) =>
      if pid in w.procs && w.procs[pid].zombie && w.procs[pid].parent != w.me then w.(procs := w.procs - {pid}) else w
    case Tick => w.(now := w.now + 1)
  }

  function ApplyAll(w: World, es: seq<Event>): World
    decreases |es|
  {
    if es == [] then w else ApplyAll(Apply(w, es[0]), es[1..])
  }

  /** Parents are older than their children and alive, or the supervisor. */
  ghost predicate WellFormed(w: World) {
    && w.me !in w.procs
    && forall p | p in w.procs ::
         && w.procs[p].start < w.nextStart
         && (w.procs[p].parent != w.me ==>
               && Alive(w, w.procs[p].parent)
               && w.procs[w.procs[p].parent].start < w.procs[p].start)
  }

  predicate Unreaped(w: World, id: Identity) {
    id.pid in w.procs && w.procs[id.pid].start == id.start
  }

  /** The identity has been issued and, while unreaped, is the supervisor's own child. */
  predicate Settled(w: World, id: Identity) {
    id.start < w.nextStart && (Unreaped(w, id) ==> Direct(w, id.pid))
  }

  /** `v` is a later state: identities never come back and only move towards the supervisor. */
  ghost predicate Later(w: World, v: World) {
    && v.me == w.me && w.nextStart <= v.nextStart && w.now <= v.now
    && forall p | p in v.procs ::
         || v.procs[p].start >= w.nextStart
         || (&& p in w.procs && w.procs[p].start == v.procs[p].start
             && (v.procs[p].parent == w.procs[p].parent || v.procs[p].parent == w.me))
  }

  /** A direct child that nobody but the supervisor can reap is still there. */
  predicate Survives(w: World, v: World, p: Pid) {
    Direct(w, p) ==>
      Direct(v, p) && v.procs[p].start == w.procs[p].start && (w.procs[p].zombie ==> v.procs[p].zombie)
  }

  /** No process is left but the root, and that one has exited. */
  predicate Quiet(w: World, root: Pid) {
    forall p | p in w.procs :: p == root && w.procs[p].zombie && w.procs[p].parent == w.me
  }

  ghost predicate Evolves(w: World, v: World) {
    && Later(w, v)
    && (forall p :: Survives(w, v, p))
    && (forall root :: Quiet(w, root) ==> Quiet(v, root) && v.nextStart == w.nextStart)
  }

  lemma LaterTrans(w: World, v: World, u: World)
    requires Later(w, v) && Later(v, u)
    ensures Later(w, u)
  {
  }

  lemma LaterSettled(w: World, v: World, id: Identity)
    requires Later(w, v) && id.start < w.nextStart
    ensures Settled(w, id) ==> Settled(v, id)
    ensures Unreaped(v, id) ==> Unreaped(w, id)
  {
  }

  lemma ApplyWellFormed(w: World, e: Event)
    requires WellFormed(w)
    ensures WellFormed(Apply(w, e))
  {
    var v := Apply(w, e);
    forall p | p in v.procs && v.procs[p].parent != v.me
      ensures Alive(v, v.procs[p].parent) && v.procs[v.procs[p].parent].start < v.procs[p].start
    {
      if p in w.procs {
        assert w.procs[p].start < w.nextStart;
      }
    }
  }

  lemma ApplyEvolves(w: World, e: Event)
    requires WellFormed(w)
    ensures WellFormed(Apply(w, e)) && Evolves(w, Apply(w, e))
  {
    ApplyWellFormed(w, e);
    var v := Apply(w, e);
    assert Later(w, v);
    forall p ensures Survives(w, v, p) {
    }
    forall root | Quiet(w, root) ensures Quiet(v, root) && v.nextStart == w.nextStart {
      assert forall p :: !Alive(w, p);
    }
  }

  lemma {:induction false} ApplyAllEvolves(w: World, es: seq<Event>)
    requires WellFormed(w)
    ensures WellFormed(ApplyAll(w, es)) && Evolves(w, ApplyAll(w, es))
    decreases |es|
  {
    if es != [] {
      var v := Apply(w, es[0]);
      var u := ApplyAll(v, es[1..]);
      ApplyEvolves(w, es[0]);
      ApplyAllEvolves(v, es[1..]);
      forall p ensures Survives(w, u, p) {
        assert Survives(w, v, p) && Survives(v, u, p);
      }
    }
  }

  /** If the only direct child is a zombie, nothing else descends from the supervisor. */
  lemma {:induction false} ZombieRootHasNoTree(w: World, root: Pid, p: Pid)
    requires WellFormed(w) && DirectChildren(w) == {root} && w.procs[root].zombie && p in w.procs
    ensures p == root
    decreases w.procs[p].start
  {
    if w.procs[p].parent == w.me {
      assert p in DirectChildren(w);
    } else {
      ZombieRootHasNoTree(w, root, w.procs[p].parent);
    }
  }

  lemma ObservedAlone(w: World, root: Pid)
    requires WellFormed(w) && DirectChildren(w) == {root} && w.procs[root].zombie
    ensures Quiet(w, root)
  {
    assert root in DirectChildren(w);
    forall p | p in w.procs ensures p == root {
      ZombieRootHasNoTree(w, root, p);
    }
  }

  /* ---------- Calls ---------- */

  datatype Signal = Term | Kill

  /** One signal that reached an unreaped process. */
  datatype Delivery = Delivery(target: Identity, signal: Signal, direct: bool)

  datatype Fault = NoFault | Interrupted | OutOfDescriptors | Broken

  datatype Error = Missing | NoSuchProcess | Exhausted | OtherError

  datatype Result<T> = Ok(value: T) | Err(error: Error)

  datatype Wait = StillRunning | Exited | AlreadyReaped | WaitFailed

  class Kernel {
    const schedule: nat -> seq<Event>
    const faults: nat -> Fault
    const glimpses: nat -> set<Pid>   // how much of the list a failing read shows
    var calls: nat
    var w: World
    var log: seq<Delivery>
    ghost var observed: set<Pid>      // the direct children when the list was last read

    constructor (w: World, schedule: nat -> seq<Event>, faults: nat -> Fault, glimpses: nat -> set<Pid>)
      requires WellFormed(w)
      ensures this.w == w && log == [] && Valid()
    {
      this.schedule, this.faults, this.glimpses := schedule, faults, glimpses;
      this.w, calls, log, observed := w, 0, [], {};
    }

    ghost predicate Valid()
      reads this`w
    {
      WellFormed(w)
    }

    /** Lets the environment run and draws the next fault. */
    method Enter() returns (fault: Fault, glimpse: set<Pid>)
      requires Valid()
      modifies this
      ensures Valid() && Evolves(old(w), w) && log == old(log) && observed == old(observed)
    {
      ApplyAllEvolves(w, schedule(calls));
      w := ApplyAll(w, schedule(calls));
      fault, glimpse := faults(calls), glimpses(calls);
      calls := calls + 1;
    }

    method Before(deadline: nat) returns (r: bool)
      requires Valid()
      modifies this
      ensures Valid() && Evolves(old(w), w) && log == old(log) && observed == old(observed)
      ensures r == (w.now < deadline)
    {
      var _, _ := Enter();
      r := w.now < deadline;
    }

    method Sleep()
      requires Valid()
      modifies this
      ensures Valid() && Evolves(old(w), w) && log == old(log) && observed == old(observed)
      ensures w.now > old(w.now)
    {
      var _, _ := Enter();
      ghost var before := w;
      w := w.(now := w.now + 1);
      assert Evolves(before, w) by { assert Apply(before, Tick) == w; ApplyEvolves(before, Tick); }
      EvolvesTrans(old(w), before, w);
    }

    method ReadChildren() returns (children: set<Pid>, failed: bool)
      requires Valid()
      modifies this
      ensures Valid() && Evolves(old(w), w) && log == old(log)
      ensures observed == DirectChildren(w) && children <= observed && (!failed ==> children == observed)
    {
      var fault, glimpse := Enter();
      observed := DirectChildren(w);
      failed := fault != NoFault;
      children := if failed then DirectChildren(w) * glimpse else DirectChildren(w);
    }

    /** A descriptor that denotes one identity for ever. */
    method PidfdOpen(p: Pid) returns (r: Result<Identity>)
      requires Valid()
      modifies this
      ensures Valid() && Evolves(old(w), w) && log == old(log) && observed == old(observed)
      ensures r.Ok? ==> r.value.pid == p && Unreaped(w, r.value)
    {
      var fault, _ := Enter();
      if fault == OutOfDescriptors {
        r := Err(Exhausted);
      } else if fault != NoFault {
        r := Err(OtherError);
      } else if p !in w.procs {
        r := Err(NoSuchProcess);
      } else {
        r := Ok(Identity(p, w.procs[p].start));
      }
    }

    /** The descriptors whose process has exited. */
    method Poll(fds: set<Identity>) returns (r: Result<set<Identity>>)
      requires Valid()
      modifies this
      ensures Valid() && Evolves(old(w), w) && log == old(log) && observed == old(observed)
      ensures r.Ok? ==> r.value == set fd | fd in fds && (Unreaped(w, fd) ==> w.procs[fd.pid].zombie)
    {
      var fault, _ := Enter();
      r := if fault == NoFault
           then Ok(set fd | fd in fds && (Unreaped(w, fd) ==> w.procs[fd.pid].zombie))
           else Err(OtherError);
    }

    method PidfdTarget(fd: Identity) returns (r: Result<bool>)
      requires Valid()
      modifies this
      ensures Valid() && Evolves(old(w), w) && log == old(log) && observed == old(observed)
      ensures r.Ok? ==> r.value == Unreaped(w, fd)
    {
      var fault, _ := Enter();
      r := if fault == NoFault then Ok(Unreaped(w, fd))
           else Err(if fault == OutOfDescriptors then Exhausted else OtherError);
    }

    method ReadStat(p: Pid) returns (r: Result<Process>)
      requires Valid()
      modifies this
      ensures Valid() && Evolves(old(w), w) && log == old(log) && observed == old(observed)
      ensures r.Ok? ==> p in w.procs && r.value == w.procs[p]
      ensures r.Err? && r.error == Missing ==> p !in w.procs
    {
      var fault, _ := Enter();
      if fault == OutOfDescriptors {
        r := Err(Exhausted);
      } else if fault != NoFault {
        r := Err(OtherError);
      } else if p !in w.procs {
        r := Err(Missing);
      } else {
        r := Ok(w.procs[p]);
      }
    }

    method PidfdSend(fd: Identity, signal: Signal) returns (r: Result<()>)
      requires Valid()
      modifies this
      ensures Valid() && Evolves(old(w), w) && observed == old(observed)
      ensures r.Ok? ==> Unreaped(w, fd) && log == old(log) + [Delivery(fd, signal, Direct(w, fd.pid))]
      ensures r == Err(NoSuchProcess) ==> !Unreaped(w, fd)
      ensures r.Err? ==> log == old(log)
    {
      var fault, _ := Enter();
      if fault != NoFault {
        r := Err(OtherError);
      } else if !Unreaped(w, fd) {
        r := Err(NoSuchProcess);
      } else {
        log := log + [Delivery(fd, signal, Direct(w, fd.pid))];
        r := Ok(());
      }
    }

    /** Reaches whichever process has the number now. */
    method SendTo(p: Pid, signal: Signal) returns (r: Result<()>)
      requires Valid()
      modifies this
      ensures Valid() && Evolves(old(w), w) && observed == old(observed)
      ensures r.Ok? ==> p in w.procs && log == old(log) + [Delivery(Identity(p, w.procs[p].start), signal, Direct(w, p))]
      ensures r == Err(NoSuchProcess) ==> p !in w.procs
      ensures r.Err? ==> log == old(log)
    {
      var fault, _ := Enter();
      if fault != NoFault {
        r := Err(OtherError);
      } else if p !in w.procs {
        r := Err(NoSuchProcess);
      } else {
        log := log + [Delivery(Identity(p, w.procs[p].start), signal, Direct(w, p))];
        r := Ok(());
      }
    }

    /** Looks for an exited child without reaping it. */
    method Peek(p: Pid) returns (r: Wait)
      requires Valid()
      modifies this
      ensures Valid() && Evolves(old(w), w) && log == old(log) && observed == old(observed)
      ensures r == Exited ==> Direct(w, p) && w.procs[p].zombie
      ensures r != AlreadyReaped
    {
      var fault, _ := Enter();
      if fault == Interrupted || (fault == NoFault && Direct(w, p) && !w.procs[p].zombie) {
        r := StillRunning;
      } else if fault == NoFault && Direct(w, p) {
        r := Exited;
      } else {
        r := WaitFailed;
      }
    }

    /** Reaps the child if it has exited. */
    method WaitNonblocking(p: Pid) returns (r: Wait)
      requires Valid()
      modifies this
      ensures Valid() && Later(old(w), w) && log == old(log) && observed == old(observed)
      ensures forall q | q != p :: Survives(old(w), w, q)
      ensures r == Exited || r == AlreadyReaped ==> !Direct(w, p)
      ensures r != Exited ==> Evolves(old(w), w)
      ensures forall root | old(Quiet(w, root)) :: Quiet(w, root) && w.nextStart == old(w.nextStart)
    {
      var fault, _ := Enter();
      ghost var v := w;
      if fault == Interrupted {
        r := StillRunning;
      } else if fault != NoFault {
        r := WaitFailed;
      } else if !Direct(w, p) {
        r := AlreadyReaped;
      } else if !w.procs[p].zombie {
        r := StillRunning;
      } else {
        assert forall q | q in w.procs :: w.procs[q].parent != p;
        w := w.(procs := w.procs - {p});
        assert Later(v, w);
        LaterTrans(old(w), v, w);
        r := Exited;
      }
      forall q | q != p ensures Survives(old(w), w, q) {
        assert Survives(old(w), v, q);
      }
    }
  }

  lemma EvolvesTrans(w: World, v: World, u: World)
    requires Evolves(w, v) && Evolves(v, u)
    ensures Evolves(w, u)
  {
    forall p ensures Survives(w, u, p) {
      assert Survives(w, v, p) && Survives(v, u, p);
    }
  }
}
