/** Which processes belong to a supervisor: the live ones reachable from it over parent links. */
module ProcessTree {
  datatype Info = Info(zombie: bool, ppid: nat, start: nat)

  type Table = map<nat, Info>

  predicate Live(t: Table, pid: nat) {
    pid in t && !t[pid].zombie
  }

  /** `pid` is a root, or a live process at most `n` parent links away from one. */
  ghost predicate ReachableIn(t: Table, roots: set<nat>, pid: nat, n: nat)
    decreases n
  {
    pid in roots || (n > 0 && Live(t, pid) && ReachableIn(t, roots, t[pid].ppid, n - 1))
  }

  ghost predicate Reachable(t: Table, roots: set<nat>, pid: nat) {
    exists n: nat :: ReachableIn(t, roots, pid, n)
  }

  lemma ChildIsReachable(t: Table, roots: set<nat>, pid: nat)
    requires Live(t, pid) && Reachable(t, roots, t[pid].ppid)
    ensures Reachable(t, roots, pid)
  {
    var n: nat :| ReachableIn(t, roots, t[pid].ppid, n);
    assert ReachableIn(t, roots, pid, n + 1);
  }

  /** A set that holds the roots and, with a process, its live children holds all that is reachable. */
  lemma {:induction false} ClosedHoldsReachable(t: Table, roots: set<nat>, owned: set<nat>, pid: nat, n: nat)
    requires roots <= owned
    requires forall p | Live(t, p) && t[p].ppid in owned :: p in owned
    requires ReachableIn(t, roots, pid, n)
    ensures pid in owned
    decreases n
  {
    if pid !in roots {
      ClosedHoldsReachable(t, roots, owned, t[pid].ppid, n - 1);
    }
  }

  /** Roots that are themselves reachable add nothing. */
  lemma {:induction false} ReachableRootsAddNothing(t: Table, roots: set<nat>, more: set<nat>, pid: nat, n: nat)
    requires forall p | p in more :: Reachable(t, roots, p)
    requires ReachableIn(t, more, pid, n)
    ensures Reachable(t, roots, pid)
    decreases n
  {
    if pid !in more {
      ReachableRootsAddNothing(t, roots, more, t[pid].ppid, n - 1);
      ChildIsReachable(t, roots, pid);
    }
  }

  lemma {:induction false} MoreRootsReachMore(t: Table, roots: set<nat>, more: set<nat>, pid: nat, n: nat)
    requires roots <= more && ReachableIn(t, roots, pid, n)
    ensures ReachableIn(t, more, pid, n)
    decreases n
  {
    if pid !in roots {
      MoreRootsReachMore(t, roots, more, t[pid].ppid, n - 1);
    }
  }
}
