/** What the ledger is worth after any sequence of backup runs with crashes between steps. */
module BackupRuns {
  import opened Wrappers
  import opened BackupState
  import opened BackupNames
  import opened BackupCollector
  import opened BackupJob

  /* ---------- Soundness of a world ---------- */

  /** What is known of the past: what each job asked for, whether every error so far told the
      truth and no archive was damaged, and which ledgers may be written. */
  datatype Past = Past(requests: map<string, Request>, honest: bool, fits: seq<Job> -> bool) {
    predicate Asked(id: string, name: string) {
      id in requests && requests[id].Name() == name
    }

    predicate Knows(req: Request) {
      req.id in requests && requests[req.id] == req
    }

    function Asking(req: Request): Past {
      this.(requests := requests[req.id := req])
    }

    /** No entry was ever evicted from the ledger. */
    predicate Few() {
      |requests| < MAX_BACKUP_STATE_JOBS
    }
  }

  /** The archive under the job's name is the job's own, or another's. */
  predicate Owns(w: World, j: Job) {
    j.archiveName in w.archives && w.archives[j.archiveName].owner == j.id
  }

  predicate Borrows(w: World, j: Job) {
    j.archiveName in w.archives && w.archives[j.archiveName].owner != j.id
  }

  /** An open or successful job published exactly if it owns the archive under its name. */
  ghost predicate JobSound(w: World, j: Job, p: Past) {
    && j.id in p.requests && j.created == p.requests[j.id].created
    && match j.status
       case Running => p.Asked(j.id, j.archiveName) && (j.id in w.published <==> Owns(w, j))
       case Success =>
         && p.Asked(j.id, j.archiveName) && (j.id in w.published <==> Owns(w, j))
         && j.archiveName in w.archives && j.artifacts == w.archives[j.archiveName].artifacts
       case _ => p.honest ==> j.archiveName == "" && j.id !in w.published
  }

  ghost predicate HasEntry(jobs: seq<Job>, id: string) {
    exists j :: j in jobs && j.id == id
  }

  ghost predicate ArchiveSound(w: World, name: string, a: Archive, p: Past) {
    name != "" && p.Asked(a.owner, name) && a.owner in w.published && (p.honest ==> a.intact)
  }

  /** A published job, which the ledger does not forget as long as it evicts nothing. */
  ghost predicate IsKnown(w: World, id: string, p: Past) {
    id in p.requests && (p.Few() ==> HasEntry(w.jobs, id))
  }

  ghost predicate Sound(w: World, p: Past) {
    && (forall j | j in w.jobs :: JobSound(w, j, p))
    && (forall n | n in w.archives :: ArchiveSound(w, n, w.archives[n], p))
    && (forall id | id in w.published :: IsKnown(w, id, p))
    && DistinctIds(w.jobs) && (w.jobs == [] || p.fits(w.jobs))
  }

  /** Publication never fails after its effect, and a good archive is never misread. */
  ghost predicate Honest(f: RunFaults) {
    (f.publish.Fails? ==> !f.publish.afterEffect) && HonestChecks(f.reconcile)
  }

  ghost predicate HonestChecks(faults: nat -> JobFaults) {
    forall k :: HonestCheck(faults(k))
  }

  predicate HonestCheck(f: JobFaults) {
    f.verify.Fails? ==> f.verify.interrupt
  }

  lemma StoreKeepsSound(w: World, entry: Job, fault: Fault, p: Past)
    requires Sound(w, p) && JobSound(w, entry, p)
    ensures Sound(Store(w, entry, fault, p.fits).world, p)
  {
    if p.fits(Recorded(w.jobs, entry)) {
      RecordingKeepsSound(w, entry, p);
    }
  }

  lemma RecordingKeepsSound(w: World, entry: Job, p: Past)
    requires Sound(w, p) && JobSound(w, entry, p) && p.fits(Recorded(w.jobs, entry))
    ensures Sound(w.(jobs := Recorded(w.jobs, entry)), p)
  {
    var v := w.(jobs := Recorded(w.jobs, entry));
    RecordedMembers(w.jobs, entry);
    RecordedDistinct(w.jobs, entry);
    RecordingKeepsKnown(w, entry, p);
    forall j | j in v.jobs ensures JobSound(v, j, p) {
      assert j != entry ==> JobSound(w, j, p);
    }
    forall n | n in v.archives ensures ArchiveSound(v, n, v.archives[n], p) {
      assert ArchiveSound(w, n, w.archives[n], p);
    }
  }

  lemma RecordingKeepsKnown(w: World, entry: Job, p: Past)
    requires Sound(w, p)
    ensures forall id | id in w.published :: IsKnown(w.(jobs := Recorded(w.jobs, entry)), id, p)
  {
    if p.Few() {
      JobsAreFew(w.jobs, p.requests.Keys);
      RecordedKeepsEntries(w.jobs, entry);
    }
    forall id | id in w.published ensures IsKnown(w.(jobs := Recorded(w.jobs, entry)), id, p) {
      assert IsKnown(w, id, p);
    }
  }

  /** Jobs with distinct ids of a set are at most as many. */
  lemma {:induction false} JobsAreFew(jobs: seq<Job>, ids: set<string>)
    requires DistinctIds(jobs) && forall j | j in jobs :: j.id in ids
    ensures |jobs| <= |ids|
  {
    if jobs != [] {
      var last, rest := jobs[|jobs| - 1], jobs[..|jobs| - 1];
      forall j | j in rest ensures j.id in ids - {last.id} {
        var k :| 0 <= k < |rest| && rest[k] == j;
        assert jobs[k].id != last.id;
      }
      JobsAreFew(rest, ids - {last.id});
    }
  }

  lemma RecordedKeepsEntries(jobs: seq<Job>, entry: Job)
    requires |jobs| < MAX_BACKUP_STATE_JOBS
    ensures HasEntry(Recorded(jobs, entry), entry.id) && forall id | HasEntry(jobs, id) :: HasEntry(Recorded(jobs, entry), id)
  {
    RecordedMembers(jobs, entry);
    RecordedEvictsOldest(jobs, entry);
    assert entry in Recorded(jobs, entry);
    forall id | HasEntry(jobs, id) ensures HasEntry(Recorded(jobs, entry), id) {
      var j :| j in jobs && j.id == id;
      assert j.id != entry.id ==> j in Recorded(jobs, entry);
    }
  }

  /** A new request asks for its name. */
  lemma AskingKeepsSound(w: World, req: Request, p: Past)
    requires Sound(w, p) && req.id !in p.requests
    ensures Sound(w, p.Asking(req))
  {
    var q := p.Asking(req);
    assert q.requests.Keys == p.requests.Keys + {req.id};
    forall j | j in w.jobs ensures JobSound(w, j, q) {
      assert JobSound(w, j, p);
    }
    forall n | n in w.archives ensures ArchiveSound(w, n, w.archives[n], q) {
      assert ArchiveSound(w, n, w.archives[n], p);
    }
  }

  /* ---------- Reconciliation ---------- */

  lemma JudgingKeepsSound(w: World, job: Job, f: JobFaults, p: Past)
    requires Sound(w, p) && JobSound(w, job, p) && (p.honest ==> HonestCheck(f))
    ensures Sound(ReconcileJob(w, job, f, p.fits).world, p)
  {
    if job.status != Running || !PlainName(job.archiveName) || f.inspect != NoFault {
    } else if job.archiveName !in w.archives {
      StoreKeepsSound(w, job.(status := Failed, archiveName := "", error := INTERRUPTED, artifacts := []), f.bookkeeping, p);
    } else {
      assert ArchiveSound(w, job.archiveName, w.archives[job.archiveName], p);
      VerifyingKeepsSound(w, job, f, p);
    }
  }

  lemma VerifyingKeepsSound(w: World, job: Job, f: JobFaults, p: Past)
    requires Sound(w, p) && JobSound(w, job, p) && (p.honest ==> HonestCheck(f))
    requires job.status == Running && PlainName(job.archiveName) && f.inspect == NoFault && job.archiveName in w.archives
    requires p.honest ==> w.archives[job.archiveName].intact
    ensures Sound(ReconcileJob(w, job, f, p.fits).world, p)
  {
    if f.verify.Crash? || (f.verify.Fails? && f.verify.interrupt) {
    } else if f.verify == NoFault && w.archives[job.archiveName].intact {
      StoreKeepsSound(w, job.(status := Success, error := "", artifacts := w.archives[job.archiveName].artifacts), f.bookkeeping, p);
    } else {
      StoreKeepsSound(w, job.(status := Failed, error := UNVERIFIED, artifacts := []), f.bookkeeping, p);
    }
  }

  /** Nothing but the ledger changes, and its entries come from where they should. */
  ghost predicate OnlyJudged(w: World, v: World, jobs: seq<Job>) {
    && v.archives == w.archives && v.published == w.published
    && (forall j | j in v.jobs :: j in w.jobs || (j.status != Running && exists k :: k in jobs && k.id == j.id))
  }

  /** A judged job leaves the ledger without any running entry of its id. */
  lemma JudgedIsClosed(w: World, job: Job, f: JobFaults, fits: seq<Job> -> bool)
    requires job.status == Running && ReconcileJob(w, job, f, fits).progress == Going
    ensures forall j | j in ReconcileJob(w, job, f, fits).world.jobs :: j.status == Running ==> j in w.jobs && j.id != job.id
  {
    var failed := job.(status := Failed, archiveName := "", error := INTERRUPTED, artifacts := []);
    var unverified := job.(status := Failed, error := UNVERIFIED, artifacts := []);
    RecordedMembers(w.jobs, failed);
    RecordedMembers(w.jobs, unverified);
    if job.archiveName in w.archives {
      RecordedMembers(w.jobs, job.(status := Success, error := "", artifacts := w.archives[job.archiveName].artifacts));
    }
  }

  lemma JudgingOnlyJudges(w: World, job: Job, f: JobFaults, fits: seq<Job> -> bool)
    ensures OnlyJudged(w, ReconcileJob(w, job, f, fits).world, [job])
  {
    var failed := job.(status := Failed, archiveName := "", error := INTERRUPTED, artifacts := []);
    var unverified := job.(status := Failed, error := UNVERIFIED, artifacts := []);
    RecordedMembers(w.jobs, failed);
    RecordedMembers(w.jobs, unverified);
    if job.archiveName in w.archives {
      RecordedMembers(w.jobs, job.(status := Success, error := "", artifacts := w.archives[job.archiveName].artifacts));
    }
    assert job in [job];
  }

  /** When a reconciliation completes, every job of its snapshot is closed. */
  lemma {:induction false} ReconcileOnlyJudges(w: World, jobs: seq<Job>, i: nat, faults: nat -> JobFaults, fits: seq<Job> -> bool)
    requires i <= |jobs|
    ensures var s := Reconcile(w, jobs, i, faults, fits);
            && OnlyJudged(w, s.world, jobs)
            && (s.progress == Going ==> forall j | j in s.world.jobs && j.status == Running ::
                                          j in w.jobs && forall k | i <= k < |jobs| :: jobs[k].status == Running ==> jobs[k].id != j.id)
    decreases |jobs| - i
  {
    if i < |jobs| {
      var s := ReconcileJob(w, jobs[i], faults(i), fits);
      JudgingOnlyJudges(w, jobs[i], faults(i), fits);
      assert jobs[i] in jobs;
      if s.progress == Going {
        if jobs[i].status == Running {
          JudgedIsClosed(w, jobs[i], faults(i), fits);
        }
        ReconcileOnlyJudges(s.world, jobs, i + 1, faults, fits);
      }
    }
  }

  /** Whatever faults occur, a reconciliation of a sound world keeps it sound. */
  lemma {:induction false} ReconcileKeepsSound(w: World, jobs: seq<Job>, i: nat, faults: nat -> JobFaults, p: Past)
    requires Sound(w, p) && (p.honest ==> HonestChecks(faults)) && i <= |jobs|
    requires forall j | j in jobs :: JobSound(w, j, p)
    ensures Sound(Reconcile(w, jobs, i, faults, p.fits).world, p)
    decreases |jobs| - i
  {
    if i < |jobs| {
      var s := ReconcileJob(w, jobs[i], faults(i), p.fits);
      assert jobs[i] in jobs && (p.honest ==> HonestCheck(faults(i)));
      JudgingKeepsSound(w, jobs[i], faults(i), p);
      JudgingOnlyJudges(w, jobs[i], faults(i), p.fits);
      if s.progress == Going {
        forall j | j in jobs ensures JobSound(s.world, j, p) {
          assert JobSound(w, j, p);
        }
        ReconcileKeepsSound(s.world, jobs, i + 1, faults, p);
      }
    }
  }

  /** A completed reconciliation leaves no running job. */
  lemma ReconciledHasNoRunning(w: World, faults: nat -> JobFaults, p: Past)
    requires Sound(w, p) && (p.honest ==> HonestChecks(faults)) && Reconcile(w, w.jobs, 0, faults, p.fits).progress == Going
    ensures var v := Reconcile(w, w.jobs, 0, faults, p.fits).world;
            Sound(v, p) && forall j | j in v.jobs :: j.status != Running
  {
    ReconcileKeepsSound(w, w.jobs, 0, faults, p);
    ReconcileOnlyJudges(w, w.jobs, 0, faults, p.fits);
    var v := Reconcile(w, w.jobs, 0, faults, p.fits).world;
    forall j | j in v.jobs ensures j.status != Running {
      assert j in w.jobs ==> exists k :: 0 <= k < |w.jobs| && w.jobs[k] == j;
    }
  }

  /* ---------- One run ---------- */

  /** The run's own job is open, if it is in the ledger at all, and did not publish. */
  ghost predicate Unpublished(w: World, req: Request, p: Past) {
    && Sound(w, p) && p.Knows(req) && req.id !in w.published
    && forall j | j in w.jobs && j.id == req.id :: j.status == Running && j.archiveName == req.Name()
  }

  /** The run's own job was recorded. */
  ghost predicate Started(w: World, req: Request, p: Past) {
    Unpublished(w, req, p) && (p.Few() ==> HasEntry(w.jobs, req.id))
  }

  ghost predicate Published(w: World, req: Request, artifacts: seq<LedgerArtifact>) {
    req.id in w.published && req.Name() in w.archives && w.archives[req.Name()] == Archive(req.id, true, artifacts)
  }

  lemma HandlingKeepsSound(w: World, req: Request, published: Option<seq<LedgerArtifact>>, cause: Cause, f: RunFaults, p: Past)
    requires Sound(w, p) && p.Knows(req)
    requires if published.Some? then Published(w, req, published.value) else p.honest ==> req.id !in w.published
    ensures Sound(Handle(w, req, published, cause, f, p.fits).world, p)
  {
    StoreKeepsSound(w, ClosingEntry(req, published, cause, f.text), f.handler, p);
  }

  lemma RenamingKeepsSound(w: World, req: Request, artifacts: seq<LedgerArtifact>, fault: Fault, p: Past)
    requires Started(w, req, p)
    ensures var s := Rename(w, req, artifacts, fault);
            && Sound(s.world, p) && (s.progress == Going ==> Published(s.world, req, artifacts))
            && (fault.Fails? && !fault.afterEffect ==> s.world == w) && (s.progress.Failing? ==> s.world == w || fault.Fails?)
  {
    if req.Name() !in w.archives && TakesEffect(fault) {
      PublishedIsSound(w, req, artifacts, p);
    }
  }

  /** The world in which the archive has just appeared. */
  lemma PublishedIsSound(w: World, req: Request, artifacts: seq<LedgerArtifact>, p: Past)
    requires Started(w, req, p) && req.Name() !in w.archives
    ensures Sound(World(w.jobs, w.archives[req.Name() := Archive(req.id, true, artifacts)], w.published + {req.id}), p)
  {
    var v := World(w.jobs, w.archives[req.Name() := Archive(req.id, true, artifacts)], w.published + {req.id});
    assert req.Name()[0] == 's';
    forall j | j in v.jobs ensures JobSound(v, j, p) {
      assert JobSound(w, j, p);
    }
    forall n | n in v.archives ensures ArchiveSound(v, n, v.archives[n], p) {
      if n in w.archives {
        assert ArchiveSound(w, n, w.archives[n], p);
      }
    }
    forall id | id in v.published ensures IsKnown(v, id, p) {
      assert id != req.id ==> IsKnown(w, id, p);
    }
  }

  lemma PublishingKeepsSound(w: World, req: Request, artifacts: seq<LedgerArtifact>, f: RunFaults, p: Past)
    requires Started(w, req, p) && (p.honest ==> Honest(f))
    ensures Sound(Publish(w, req, artifacts, f, p.fits).world, p)
  {
    var s := Rename(w, req, artifacts, f.publish);
    RenamingKeepsSound(w, req, artifacts, f.publish, p);
    if s.progress.Failing? {
      HandlingKeepsSound(s.world, req, None, s.progress.cause, f, p);
    } else if s.progress == Going {
      var v := s.world;
      if f.sync.Fails? {
        HandlingKeepsSound(v, req, Some(artifacts), After(f.sync).cause, f, p);
      } else if f.sync == NoFault {
        var entry := Entry(req, Success, req.Name(), "", artifacts);
        StoreKeepsSound(v, entry, f.success, p);
        var t := Store(v, entry, f.success, p.fits);
        if t.progress.Failing? {
          HandlingKeepsSound(t.world, req, Some(artifacts), t.progress.cause, f, p);
        }
      }
    }
  }

  lemma BuildingKeepsSound(w: World, req: Request, collected: seq<Artifact>, f: RunFaults, p: Past)
    requires Started(w, req, p) && (p.honest ==> Honest(f))
    ensures Sound(Build(w, req, collected, f, p.fits).world, p)
  {
    HandlingKeepsSound(w, req, None, Other, f, p);
    HandlingKeepsSound(w, req, None, Interrupt, f, p);
    PublishingKeepsSound(w, req, LedgerArtifacts(collected), f, p);
  }

  lemma GatheringKeepsSound(w: World, req: Request, f: RunFaults, p: Past)
    requires Started(w, req, p) && (p.honest ==> Honest(f))
    ensures Sound(Gather(w, req, f, p.fits).world, p)
  {
    var skipped := Entry(req, Skipped, "", "", []);
    StoreKeepsSound(w, skipped, f.skip, p);
    var s := Store(w, skipped, f.skip, p.fits);
    HandlingKeepsSound(w, req, None, Other, f, p);
    HandlingKeepsSound(w, req, None, Interrupt, f, p);
    if s.progress.Failing? {
      HandlingKeepsSound(s.world, req, None, s.progress.cause, f, p);
    }
    BuildingKeepsSound(w, req, Collected(req.sources, req.selection, w.jobs, |req.sources|), f, p);
  }

  /** The start of the run's own job in a ledger that never heard of it. */
  lemma StartedIsUnpublished(w: World, req: Request, fault: Fault, p: Past)
    requires Sound(w, p) && req.id !in p.requests
    ensures var s := Store(w, Entry(req, Running, req.Name(), "", []), fault, p.fits);
            Unpublished(s.world, req, p.Asking(req)) && (s.progress == Going ==> Started(s.world, req, p.Asking(req)))
  {
    var entry := Entry(req, Running, req.Name(), "", []);
    var q := p.Asking(req);
    AskingKeepsSound(w, req, p);
    if req.Name() in w.archives {
      assert ArchiveSound(w, req.Name(), w.archives[req.Name()], p);
    }
    StoreKeepsSound(w, entry, fault, q);
    RecordedMembers(w.jobs, entry);
    assert entry in Recorded(w.jobs, entry);
    forall j | j in w.jobs ensures j.id != req.id {
      assert JobSound(w, j, p);
    }
  }

  /** A run with a new job id keeps the ledger sound, whatever fails and wherever it crashes. */
  lemma RunKeepsSound(w: World, req: Request, f: RunFaults, p: Past)
    requires Sound(w, p) && req.id !in p.requests && (p.honest ==> Honest(f))
    ensures Sound(Run(w, req, f, p.fits).world, p.Asking(req))
  {
    var q := p.Asking(req);
    AskingKeepsSound(w, req, p);
    ReconcileKeepsSound(w, w.jobs, 0, f.reconcile, p);
    var v := Reconcile(w, w.jobs, 0, f.reconcile, p.fits).world;
    AskingKeepsSound(v, req, p);
    StartedIsUnpublished(v, req, f.start, p);
    var s := Store(v, Entry(req, Running, req.Name(), "", []), f.start, p.fits);
    if s.progress.Failing? {
      HandlingKeepsSound(s.world, req, None, s.progress.cause, f, q);
    } else if s.progress == Going {
      GatheringKeepsSound(s.world, req, f, q);
    }
  }

  /* ---------- All sequences of runs ---------- */

  /** A run, and the archives that are damaged before it. */
  datatype Attempt = Attempt(req: Request, faults: RunFaults, damaged: set<string>)

  function Damage(w: World, names: set<string>): World {
    w.(archives := map n | n in w.archives :: if n in names then w.archives[n].(intact := false) else w.archives[n])
  }

  ghost function Runs(w: World, attempts: seq<Attempt>, fits: seq<Job> -> bool): World
    decreases |attempts|
  {
    if attempts == [] then w
    else Runs(Run(Damage(w, attempts[0].damaged), attempts[0].req, attempts[0].faults, fits).world, attempts[1..], fits)
  }

  predicate DistinctAttempts(attempts: seq<Attempt>) {
    forall i, j | 0 <= i < j < |attempts| :: attempts[i].req.id != attempts[j].req.id
  }

  ghost predicate HonestRuns(attempts: seq<Attempt>) {
    forall k | 0 <= k < |attempts| :: Honest(attempts[k].faults) && attempts[k].damaged == {}
  }

  ghost function PastOf(p: Past, attempts: seq<Attempt>): Past
    decreases |attempts|
  {
    if attempts == [] then p else PastOf(p.Asking(attempts[0].req), attempts[1..])
  }

  ghost predicate RequestedBy(attempts: seq<Attempt>, k: nat, req: Request) {
    k < |attempts| && attempts[k].req == req
  }

  /** Every request is one of the runs', and there are no more than runs. */
  lemma {:induction false} PastRequests(p: Past, attempts: seq<Attempt>)
    ensures forall id | id in PastOf(p, attempts).requests ::
              || (id in p.requests && p.requests[id] == PastOf(p, attempts).requests[id])
              || (PastOf(p, attempts).requests[id].id == id && exists k :: RequestedBy(attempts, k, PastOf(p, attempts).requests[id]))
    ensures |PastOf(p, attempts).requests| <= |p.requests| + |attempts|
    ensures PastOf(p, attempts).honest == p.honest && PastOf(p, attempts).fits == p.fits
    decreases |attempts|
  {
    if attempts != [] {
      var rest := attempts[1..];
      var q := p.Asking(attempts[0].req);
      assert q.requests.Keys == p.requests.Keys + {attempts[0].req.id};
      PastRequests(q, rest);
      var all := PastOf(q, rest).requests;
      forall id | id in all
        ensures (id in p.requests && p.requests[id] == all[id]) || (all[id].id == id && exists k :: RequestedBy(attempts, k, all[id]))
      {
        if k: nat :| RequestedBy(rest, k, all[id]) {
          assert RequestedBy(attempts, k + 1, all[id]);
        } else {
          assert RequestedBy(attempts, 0, attempts[0].req);
        }
      }
    }
  }

  lemma DamageKeepsSound(w: World, names: set<string>, p: Past)
    requires Sound(w, p) && (p.honest ==> names == {})
    ensures Sound(Damage(w, names), p)
  {
    var v := Damage(w, names);
    forall j | j in v.jobs ensures JobSound(v, j, p) {
      assert JobSound(w, j, p);
    }
    forall n | n in v.archives ensures ArchiveSound(v, n, v.archives[n], p) {
      assert ArchiveSound(w, n, w.archives[n], p);
    }
  }

  lemma {:induction false} RunsKeepSound(w: World, attempts: seq<Attempt>, p: Past)
    requires Sound(w, p) && DistinctAttempts(attempts) && (p.honest ==> HonestRuns(attempts))
    requires forall k | 0 <= k < |attempts| :: attempts[k].req.id !in p.requests
    ensures Sound(Runs(w, attempts, p.fits), PastOf(p, attempts))
    decreases |attempts|
  {
    if attempts != [] {
      var first, rest := attempts[0], attempts[1..];
      DamageKeepsSound(w, first.damaged, p);
      RunKeepsSound(Damage(w, first.damaged), first.req, first.faults, p);
      forall k | 0 <= k < |rest| ensures rest[k].req.id !in p.Asking(first.req).requests {
        assert rest[k] == attempts[k + 1];
      }
      RunsKeepSound(Run(Damage(w, first.damaged), first.req, first.faults, p.fits).world, rest, p.Asking(first.req));
    }
  }

  const EMPTY := World([], map[], {})

  ghost function FirstPast(honest: bool, fits: seq<Job> -> bool): Past {
    Past(map[], honest, fits)
  }

  lemma EmptyIsSound(p: Past)
    ensures Sound(EMPTY, p)
  {
  }

  /** What is known after the runs, and after a reconciliation, even one that stops. */
  lemma {:induction false} ReachedIsSound(attempts: seq<Attempt>, faults: nat -> JobFaults, honest: bool, fits: seq<Job> -> bool)
    requires DistinctAttempts(attempts) && (honest ==> HonestRuns(attempts) && HonestChecks(faults))
    ensures var w := Runs(EMPTY, attempts, fits);
            var p := PastOf(FirstPast(honest, fits), attempts);
            && Sound(w, p) && Sound(Reconcile(w, w.jobs, 0, faults, fits).world, p)
            && p.honest == honest && p.fits == fits && |p.requests| <= |attempts|
  {
    var p := FirstPast(honest, fits);
    EmptyIsSound(p);
    RunsKeepSound(EMPTY, attempts, p);
    PastRequests(p, attempts);
    var w := Runs(EMPTY, attempts, fits);
    ReconcileKeepsSound(w, w.jobs, 0, faults, PastOf(p, attempts));
  }

  ghost predicate Truthful(w: World, j: Job) {
    j.status == Success <==> j.id in w.published
  }

  /** After any sequence of runs with distinct job ids, each interrupted or crashed anywhere, a
      completed reconciliation leaves no running job.  A success has an archive under its name,
      and published exactly if that archive is its own.  If no error lied and no archive was
      damaged, the ledger never denies a published job, and is wrong about a job exactly when
      another job's archive bears its name.  Nor does it forget one in fewer than 256 runs. */
  lemma {:induction false} EveryRunEndsTruthful(attempts: seq<Attempt>, w: World, faults: nat -> JobFaults, fits: seq<Job> -> bool)
    requires DistinctAttempts(attempts) && w == Runs(EMPTY, attempts, fits)
    requires Reconcile(w, w.jobs, 0, faults, fits).progress == Going
    ensures var v := Reconcile(w, w.jobs, 0, faults, fits).world;
            && (forall j | j in v.jobs :: j.status != Running)
            && (forall j | j in v.jobs && j.status == Success :: j.archiveName in v.archives && (Truthful(v, j) <==> !Borrows(v, j)))
            && (HonestRuns(attempts) && HonestChecks(faults) ==>
                  forall j | j in v.jobs :: (Truthful(v, j) <==> !Borrows(v, j)) && (j.id in v.published ==> j.status == Success))
            && (|attempts| < MAX_BACKUP_STATE_JOBS ==> forall id | id in v.published :: HasEntry(v.jobs, id))
  {
    var honest := HonestRuns(attempts) && HonestChecks(faults);
    var p := PastOf(FirstPast(honest, fits), attempts);
    ReachedIsSound(attempts, faults, honest, fits);
    ReconcileOnlyJudges(w, w.jobs, 0, faults, fits);
    ReconciledHasNoRunning(w, faults, p);
    var v := Reconcile(w, w.jobs, 0, faults, fits).world;
    forall j | j in v.jobs
      ensures j.status == Success ==> j.archiveName in v.archives && (Truthful(v, j) <==> !Borrows(v, j))
      ensures honest ==> (Truthful(v, j) <==> !Borrows(v, j)) && (j.id in v.published ==> j.status == Success)
    {
      ClosedJobIsJudged(v, j, p);
    }
    if |attempts| < MAX_BACKUP_STATE_JOBS {
      forall id | id in v.published ensures HasEntry(v.jobs, id) {
        assert IsKnown(v, id, p);
      }
    }
  }

  lemma ClosedJobIsJudged(v: World, j: Job, p: Past)
    requires Sound(v, p) && j in v.jobs && j.status != Running
    ensures j.status == Success ==> j.archiveName in v.archives && (Truthful(v, j) <==> !Borrows(v, j))
    ensures p.honest ==> (Truthful(v, j) <==> !Borrows(v, j)) && (j.id in v.published ==> j.status == Success)
  {
    assert JobSound(v, j, p);
    assert "" in v.archives ==> ArchiveSound(v, "", v.archives[""], p);
  }

  /** Two requests for one archive name. */
  ghost predicate ShareName(x: Request, y: Request) {
    x.id != y.id && Short(x.id) == Short(y.id) && Timestamp(x.created) == Timestamp(y.created) && x.Encrypted() == y.Encrypted()
  }

  lemma ShareNameExactly(x: Request, y: Request)
    ensures ShareName(x, y) <==> x.id != y.id && x.Name() == y.Name()
  {
    NamesMeet(x.id, x.created, x.Encrypted(), y.id, y.created, y.Encrypted());
  }

  /** A job has another's archive under its name only if two runs asked for one name, and so
      only if their ids begin alike and their times agree. */
  lemma BorrowersShareNames(attempts: seq<Attempt>, w: World, faults: nat -> JobFaults, fits: seq<Job> -> bool, j: Job)
    returns (a: nat, b: nat)
    requires DistinctAttempts(attempts) && w == Runs(EMPTY, attempts, fits)
    requires var v := Reconcile(w, w.jobs, 0, faults, fits).world; j in v.jobs && j.status == Success && Borrows(v, j)
    ensures a < |attempts| && b < |attempts| && attempts[a].req.id == j.id && attempts[b].req.id in w.published
    ensures ShareName(attempts[a].req, attempts[b].req)
  {
    var p := PastOf(FirstPast(false, fits), attempts);
    ReachedIsSound(attempts, faults, false, fits);
    var v := Reconcile(w, w.jobs, 0, faults, fits).world;
    ReconcileOnlyJudges(w, w.jobs, 0, faults, fits);
    assert JobSound(v, j, p);
    var owner := v.archives[j.archiveName].owner;
    assert ArchiveSound(v, j.archiveName, v.archives[j.archiveName], p);
    a := WhoAsked(attempts, p, fits, j.id);
    b := WhoAsked(attempts, p, fits, owner);
    ShareNameExactly(attempts[a].req, attempts[b].req);
  }

  lemma WhoAsked(attempts: seq<Attempt>, p: Past, fits: seq<Job> -> bool, id: string) returns (k: nat)
    requires p == PastOf(FirstPast(false, fits), attempts) && id in p.requests
    ensures k < |attempts| && attempts[k].req == p.requests[id] && attempts[k].req.id == id
  {
    PastRequests(FirstPast(false, fits), attempts);
    k :| RequestedBy(attempts, k, p.requests[id]);
  }
}
