/** When the recovery of interrupted jobs gets through, and when no later run does. */
module BackupRecovery {
  import opened Wrappers
  import opened BackupState
  import opened BackupNames
  import opened BackupJob
  import opened BackupRuns
  import opened BackupVerdicts
  import opened BackupNamesakes

  /** The entry that closes an open job: no archive, one that verifies, or one that does not. */
  function Verdict(w: World, job: Job): Job {
    if job.archiveName !in w.archives then job.(status := Failed, archiveName := "", error := INTERRUPTED, artifacts := [])
    else if w.archives[job.archiveName].intact then
      job.(status := Success, error := "", artifacts := w.archives[job.archiveName].artifacts)
    else job.(status := Failed, error := UNVERIFIED, artifacts := [])
  }

  /** The ledger after the verdicts on the open ones of the first `n` jobs. */
  function Judged(w: World, jobs: seq<Job>, n: nat): seq<Job>
    requires n <= |jobs|
  {
    if n == 0 then w.jobs
    else
      var before := Judged(w, jobs, n - 1);
      if jobs[n - 1].status == Running then Recorded(before, Verdict(w, jobs[n - 1])) else before
  }

  /** The `k`-th job is closed, or its name can be looked up and its verdict be recorded. */
  ghost predicate Passes(w: World, jobs: seq<Job>, k: nat, fits: seq<Job> -> bool)
    requires k < |jobs|
  {
    jobs[k].status == Running ==> PlainName(jobs[k].archiveName) && fits(Judged(w, jobs, k + 1))
  }

  ghost predicate Calm(faults: nat -> JobFaults) {
    forall k :: IsCalm(faults(k))
  }

  predicate IsCalm(f: JobFaults) {
    f == JobFaults(NoFault, NoFault, NoFault)
  }

  lemma JudgedStep(w: World, jobs: seq<Job>, k: nat, f: JobFaults, fits: seq<Job> -> bool)
    requires k < |jobs| && IsCalm(f)
    ensures ReconcileJob(w.(jobs := Judged(w, jobs, k)), jobs[k], f, fits)
            == if Passes(w, jobs, k, fits) then State(w.(jobs := Judged(w, jobs, k + 1)), Going)
               else State(w.(jobs := Judged(w, jobs, k)), Failing(if PlainName(jobs[k].archiveName) then Refused else Other))
  {
  }

  /** The first job from the `i`-th on that does not pass, if there is one. */
  ghost predicate StopsAt(w: World, jobs: seq<Job>, i: nat, k: nat, fits: seq<Job> -> bool) {
    i <= k < |jobs| && !Passes(w, jobs, k, fits) && forall m | i <= m < k :: Passes(w, jobs, m, fits)
  }

  lemma {:induction false} CompletesFrom(w: World, jobs: seq<Job>, i: nat, faults: nat -> JobFaults, fits: seq<Job> -> bool)
    requires i <= |jobs| && Calm(faults)
    ensures var s := Reconcile(w.(jobs := Judged(w, jobs, i)), jobs, i, faults, fits);
            && (s.progress == Going <==> forall k | i <= k < |jobs| :: Passes(w, jobs, k, fits))
            && (s.progress == Going ==> s.world == w.(jobs := Judged(w, jobs, |jobs|)))
            && (s.progress != Going ==> s.progress.Failing?
                                        && exists k :: StopsAt(w, jobs, i, k, fits) && s.world == w.(jobs := Judged(w, jobs, k)))
    decreases |jobs| - i
  {
    if i < |jobs| {
      JudgedStep(w, jobs, i, faults(i), fits);
      if Passes(w, jobs, i, fits) {
        CompletesFrom(w, jobs, i + 1, faults, fits);
        var s := Reconcile(w.(jobs := Judged(w, jobs, i + 1)), jobs, i + 1, faults, fits);
        if s.progress != Going {
          var k: nat :| StopsAt(w, jobs, i + 1, k, fits) && s.world == w.(jobs := Judged(w, jobs, k));
          assert StopsAt(w, jobs, i, k, fits);
        }
      } else {
        assert StopsAt(w, jobs, i, i, fits);
      }
    }
  }

  /** In every world, a recovery without faults gets through exactly if each open job's archive
      name is a plain one and the ledger fits after each verdict, in the order of the ledger.
      Then every verdict is recorded; otherwise those before the first obstacle are. */
  lemma CompletesExactly(w: World, faults: nat -> JobFaults, fits: seq<Job> -> bool)
    requires Calm(faults)
    ensures var s := Reconcile(w, w.jobs, 0, faults, fits);
            && (s.progress == Going <==> forall k | 0 <= k < |w.jobs| :: Passes(w, w.jobs, k, fits))
            && (s.progress == Going ==> s.world == w.(jobs := Judged(w, w.jobs, |w.jobs|)))
            && (s.progress != Going ==> s.progress.Failing?
                                        && exists k :: StopsAt(w, w.jobs, 0, k, fits) && s.world == w.(jobs := Judged(w, w.jobs, k)))
  {
    assert w.(jobs := Judged(w, w.jobs, 0)) == w;
    CompletesFrom(w, w.jobs, 0, faults, fits);
  }

  /* ---------- Worlds in which no run gets through ---------- */

  predicate FirstOpen(w: World, i: nat) {
    i < |w.jobs| && w.jobs[i].status == Running && forall k | 0 <= k < i :: w.jobs[k].status != Running
  }

  /** The first open job cannot be closed. */
  ghost predicate Stuck(w: World, fits: seq<Job> -> bool) {
    exists i :: FirstOpen(w, i) && !Passes(w, w.jobs, i, fits)
  }

  lemma {:induction false} NothingJudged(w: World, jobs: seq<Job>, n: nat)
    requires n <= |jobs| && forall k | 0 <= k < n :: jobs[k].status != Running
    ensures Judged(w, jobs, n) == w.jobs
  {
    if n > 0 {
      NothingJudged(w, jobs, n - 1);
    }
  }

  ghost predicate Halts(w: World, faults: nat -> JobFaults, fits: seq<Job> -> bool) {
    var s := Reconcile(w, w.jobs, 0, faults, fits);
    s.world == w && s.progress != Going
  }

  lemma {:induction false} StuckFrom(w: World, k: nat, i: nat, faults: nat -> JobFaults, fits: seq<Job> -> bool)
    requires k <= i && FirstOpen(w, i) && !Passes(w, w.jobs, i, fits) && HonestChecks(faults)
    ensures var s := Reconcile(w, w.jobs, k, faults, fits); s.world == w && s.progress != Going
    decreases i - k
  {
    if k < i {
      StuckFrom(w, k + 1, i, faults, fits);
    } else {
      NothingJudged(w, w.jobs, i);
      assert HonestCheck(faults(i));
      assert Judged(w, w.jobs, i + 1) == Recorded(w.jobs, Verdict(w, w.jobs[i]));
      var s := ReconcileJob(w, w.jobs[i], faults(i), fits);
      assert s.progress != Going && s.world == w;
    }
  }

  /** A verdict leaves no open entry of the judged id. */
  lemma {:induction false} JudgedAreClosed(w: World, jobs: seq<Job>, n: nat, m: nat, j: Job)
    requires m < n <= |jobs| && jobs[m].status == Running && j in Judged(w, jobs, n) && j.id == jobs[m].id
    ensures j.status != Running
    decreases n
  {
    var before := Judged(w, jobs, n - 1);
    if jobs[n - 1].status == Running {
      RecordedMembers(before, Verdict(w, jobs[n - 1]));
    }
    if m < n - 1 && j in before {
      JudgedAreClosed(w, jobs, n - 1, m, j);
    }
  }

  /** Recovery changes nothing and fails, whatever else fails in it, exactly if the first open
      job cannot be closed. */
  lemma StuckExactly(w: World, fits: seq<Job> -> bool)
    ensures (forall faults | HonestChecks(faults) :: Halts(w, faults, fits)) <==> Stuck(w, fits)
  {
    if Stuck(w, fits) {
      var i :| FirstOpen(w, i) && !Passes(w, w.jobs, i, fits);
      forall faults | HonestChecks(faults) ensures Halts(w, faults, fits) {
        StuckFrom(w, 0, i, faults, fits);
      }
    } else {
      var faults := NoFaults().reconcile;
      assert HonestChecks(faults);
      NotStuckMoves(w, faults, fits);
    }
  }

  lemma NotStuckMoves(w: World, faults: nat -> JobFaults, fits: seq<Job> -> bool)
    requires !Stuck(w, fits) && Calm(faults)
    ensures !Halts(w, faults, fits)
  {
    CompletesExactly(w, faults, fits);
    var s := Reconcile(w, w.jobs, 0, faults, fits);
    if s.progress != Going {
      var k: nat :| StopsAt(w, w.jobs, 0, k, fits) && s.world == w.(jobs := Judged(w, w.jobs, k));
      assert !FirstOpen(w, k);
      var m :| 0 <= m < k && w.jobs[m].status == Running;
      if w.jobs[m] in Judged(w, w.jobs, k) {
        JudgedAreClosed(w, w.jobs, k, m, w.jobs[m]);
        assert false;
      }
      assert w.jobs[m] in w.jobs;
    }
  }

  /* ---------- Runs that change nothing ---------- */

  predicate HasOpen(w: World) {
    exists i :: 0 <= i < |w.jobs| && w.jobs[i].status == Running
  }

  /** The ledger never heard of the request. */
  predicate IsNew(w: World, req: Request) {
    forall j | j in w.jobs :: j.id != req.id
  }

  /** Neither the start of the run nor any failure of it can be recorded. */
  ghost predicate Full(w: World, req: Request, fits: seq<Job> -> bool) {
    && !fits(Recorded(w.jobs, Open(req)))
    && forall cause, text :: !fits(Recorded(w.jobs, ClosingEntry(req, None, cause, text)))
  }

  /** Recovery is stuck, or there is nothing to recover and no room for the run itself. */
  ghost predicate Barred(w: World, req: Request, fits: seq<Job> -> bool) {
    Stuck(w, fits) || (!HasOpen(w) && Full(w, req, fits))
  }

  lemma {:induction false} NothingToRecover(w: World, i: nat, faults: nat -> JobFaults, fits: seq<Job> -> bool)
    requires !HasOpen(w) && i <= |w.jobs|
    ensures Reconcile(w, w.jobs, i, faults, fits) == State(w, Going)
    decreases |w.jobs| - i
  {
    if i < |w.jobs| {
      NothingToRecover(w, i + 1, faults, fits);
    }
  }

  /** A barred run raises, or crashes, and changes nothing, whatever fails in it. */
  lemma BarredRun(w: World, req: Request, f: RunFaults, fits: seq<Job> -> bool)
    requires Barred(w, req, fits) && HonestChecks(f.reconcile)
    ensures Run(w, req, f, fits).world == w && !Run(w, req, f, fits).ended.Returned?
  {
    if Stuck(w, fits) {
      StuckExactly(w, fits);
      assert Halts(w, f.reconcile, fits);
    } else {
      NothingToRecover(w, 0, f.reconcile, fits);
      FullStart(w, req, f, fits);
    }
  }

  lemma FullStart(w: World, req: Request, f: RunFaults, fits: seq<Job> -> bool)
    requires Full(w, req, fits)
    ensures Start(w, req, f, fits).world == w && !Start(w, req, f, fits).ended.Returned?
  {
    var s := Store(w, Open(req), f.start, fits);
    assert s.world == w && s.progress != Going;
    if s.progress.Failing? {
      assert !fits(Recorded(w.jobs, ClosingEntry(req, None, s.progress.cause, f.text)));
    }
  }

  /** A run that is not barred can change something: it records a verdict, its start, or its
      failure. */
  lemma UnbarredRun(w: World, req: Request, fits: seq<Job> -> bool) returns (f: RunFaults)
    requires !Barred(w, req, fits) && IsNew(w, req)
    ensures HonestChecks(f.reconcile) && Run(w, req, f, fits).world != w
  {
    if HasOpen(w) {
      f := NoFaults().(start := Crash(false));
      NotStuckMoves(w, f.reconcile, fits);
      var s := Reconcile(w, w.jobs, 0, f.reconcile, fits);
      if s.progress == Going {
        RecoveryCloses(w, f.reconcile, fits);
      }
    } else if fits(Recorded(w.jobs, Open(req))) {
      f := NoFaults().(start := Crash(true));
      NothingToRecover(w, 0, f.reconcile, fits);
      RecordingChanges(w, Open(req));
    } else {
      f := RecordedFailure(w, req, fits);
    }
  }

  lemma RecordingChanges(w: World, entry: Job)
    requires forall j | j in w.jobs :: j.id != entry.id
    ensures Recorded(w.jobs, entry) != w.jobs
  {
    RecordedMembers(w.jobs, entry);
  }

  lemma RecoveryCloses(w: World, faults: nat -> JobFaults, fits: seq<Job> -> bool)
    requires HasOpen(w) && Reconcile(w, w.jobs, 0, faults, fits).progress == Going
    ensures Reconcile(w, w.jobs, 0, faults, fits).world != w
  {
    ReconcileOnlyJudges(w, w.jobs, 0, faults, fits);
    var i :| 0 <= i < |w.jobs| && w.jobs[i].status == Running;
    assert w.jobs[i] in w.jobs;
  }

  /** A start that is refused or raises, with a failure that can be recorded. */
  lemma RecordedFailure(w: World, req: Request, fits: seq<Job> -> bool) returns (f: RunFaults)
    requires !HasOpen(w) && IsNew(w, req) && !fits(Recorded(w.jobs, Open(req))) && !Full(w, req, fits)
    ensures HonestChecks(f.reconcile) && Run(w, req, f, fits).world != w
  {
    var cause, text :| fits(Recorded(w.jobs, ClosingEntry(req, None, cause, text)));
    var start := match cause case Interrupt => Fails(false, true) case Refused => NoFault case Other => Fails(false, false);
    f := NoFaults().(start := start, text := text);
    NothingToRecover(w, 0, f.reconcile, fits);
    assert Store(w, Open(req), f.start, fits) == State(w, Failing(cause));
    RecordingChanges(w, ClosingEntry(req, None, cause, text));
  }

  ghost predicate ChangesNothing(w: World, req: Request, f: RunFaults, fits: seq<Job> -> bool) {
    Run(w, req, f, fits).world == w
  }

  /** Every run with a new job id changes nothing, whatever fails in it, exactly if recovery is
      stuck at the first open job, or there is none and the ledger has no room for the run; and
      then none of them returns. */
  lemma RunsChangeNothingExactly(w: World, req: Request, fits: seq<Job> -> bool)
    requires IsNew(w, req)
    ensures (forall f: RunFaults | HonestChecks(f.reconcile) :: ChangesNothing(w, req, f, fits)) <==> Barred(w, req, fits)
    ensures Barred(w, req, fits) ==> forall f: RunFaults | HonestChecks(f.reconcile) :: !Run(w, req, f, fits).ended.Returned?
  {
    if Barred(w, req, fits) {
      forall f: RunFaults | HonestChecks(f.reconcile) ensures ChangesNothing(w, req, f, fits) && !Run(w, req, f, fits).ended.Returned? {
        BarredRun(w, req, f, fits);
      }
    } else {
      var f := UnbarredRun(w, req, fits);
      assert !ChangesNothing(w, req, f, fits);
    }
  }

  /** Without faults, and with nothing to recover: the start and its refusal must both be refused. */
  lemma UndisturbedRunChangesNothingExactly(w: World, req: Request, fits: seq<Job> -> bool)
    requires IsNew(w, req) && !HasOpen(w)
    ensures ChangesNothing(w, req, NoFaults(), fits) <==>
              !fits(Recorded(w.jobs, Open(req))) && !fits(Recorded(w.jobs, ClosingEntry(req, None, Refused, "")))
  {
    var f := NoFaults();
    NothingToRecover(w, 0, f.reconcile, fits);
    RecordingChanges(w, ClosingEntry(req, None, Refused, ""));
    if fits(Recorded(w.jobs, Open(req))) {
      StartedKeepsEntry(w, req, f, fits);
    }
  }

  /** A recorded start leaves an entry of the run, whatever follows. */
  lemma StartedKeepsEntry(w: World, req: Request, f: RunFaults, fits: seq<Job> -> bool)
    requires IsNew(w, req) && fits(Recorded(w.jobs, Open(req))) && f.start == NoFault
    ensures Start(w, req, f, fits).world != w
  {
    var v := w.(jobs := Recorded(w.jobs, Open(req)));
    RecordedMembers(w.jobs, Open(req));
    assert Open(req) in v.jobs;
    GatheringFrames(v, v, req, f, fits);
    assert HasEntry(Start(w, req, f, fits).world.jobs, req.id);
  }

  /* ---------- For ever ---------- */

  /** Later runs with ids of their own, over archives that nobody damages. */
  ghost predicate Later(w: World, attempts: seq<Attempt>) {
    forall k | 0 <= k < |attempts| ::
      IsNew(w, attempts[k].req) && HonestChecks(attempts[k].faults.reconcile) && attempts[k].damaged == {}
  }

  lemma {:induction false} BarredForEver(w: World, attempts: seq<Attempt>, fits: seq<Job> -> bool)
    requires Later(w, attempts) && forall req | IsNew(w, req) :: Barred(w, req, fits)
    ensures Runs(w, attempts, fits) == w
    decreases |attempts|
  {
    if attempts != [] {
      assert Damage(w, {}) == w;
      BarredRun(w, attempts[0].req, attempts[0].faults, fits);
      BarredForEver(w, attempts[1..], fits);
    }
  }

  ghost predicate Unmoved(w: World, attempts: seq<Attempt>, fits: seq<Job> -> bool) {
    Runs(w, attempts, fits) == w
  }

  /** No sequence of later runs ever changes anything exactly if every new request is barred. */
  lemma NothingEverChangesExactly(w: World, fits: seq<Job> -> bool)
    ensures (forall attempts | Later(w, attempts) :: Unmoved(w, attempts, fits)) <==> (forall req | IsNew(w, req) :: Barred(w, req, fits))
  {
    if forall req | IsNew(w, req) :: Barred(w, req, fits) {
      forall attempts | Later(w, attempts) ensures Unmoved(w, attempts, fits) {
        BarredForEver(w, attempts, fits);
      }
    }
    if req :| IsNew(w, req) && !Barred(w, req, fits) {
      var f := UnbarredRun(w, req, fits);
      var attempts := [Attempt(req, f, {})];
      assert Damage(w, {}) == w && attempts[1..] == [];
      assert Runs(w, attempts, fits) == Runs(Run(w, req, f, fits).world, attempts[1..], fits);
      assert Later(w, attempts) && !Unmoved(w, attempts, fits);
    }
  }
}
