/** When the ledger is wrong about a job, exactly. */
module BackupVerdicts {
  import opened Wrappers
  import opened BackupState
  import opened BackupCollector
  import opened BackupJob
  import opened BackupRuns
  import opened BackupManifest
  import opened RenderedSizes
  import opened BackupSamples

  /* ---------- What a reconciliation decides ---------- */

  /** The archive under the job's name is there, undamaged, and verified without an error. */
  predicate Verified(w: World, job: Job, f: JobFaults) {
    job.archiveName in w.archives && w.archives[job.archiveName].intact && f.verify == NoFault
  }

  predicate Closes(w: World, jobs: seq<Job>, k: nat, faults: nat -> JobFaults, j: Job) {
    && k < |jobs| && jobs[k].status == Running && jobs[k].id == j.id
    && j.status == if Verified(w, jobs[k], faults(k)) then Success else Failed
  }

  lemma JudgedEntry(w: World, job: Job, f: JobFaults, fits: seq<Job> -> bool, j: Job)
    requires job.status == Running && ReconcileJob(w, job, f, fits).progress == Going && j in ReconcileJob(w, job, f, fits).world.jobs
    ensures if j.id == job.id then j.status == (if Verified(w, job, f) then Success else Failed) else j in w.jobs
    ensures ReconcileJob(w, job, f, fits).world.archives == w.archives
  {
    if job.archiveName !in w.archives {
      RecordedMembers(w.jobs, job.(status := Failed, archiveName := "", error := INTERRUPTED, artifacts := []));
    } else if f.verify == NoFault && w.archives[job.archiveName].intact {
      RecordedMembers(w.jobs, job.(status := Success, error := "", artifacts := w.archives[job.archiveName].artifacts));
    } else {
      RecordedMembers(w.jobs, job.(status := Failed, error := UNVERIFIED, artifacts := []));
    }
  }

  lemma {:induction false} VerdictsFrom(w: World, jobs: seq<Job>, i: nat, faults: nat -> JobFaults, fits: seq<Job> -> bool, j: Job)
    requires i <= |jobs| && Reconcile(w, jobs, i, faults, fits).progress == Going
    requires j in Reconcile(w, jobs, i, faults, fits).world.jobs
    ensures || (exists k :: i <= k && Closes(w, jobs, k, faults, j))
            || (j in w.jobs && forall k | i <= k < |jobs| && jobs[k].status == Running :: jobs[k].id != j.id)
    decreases |jobs| - i
  {
    if i < |jobs| {
      var s := ReconcileJob(w, jobs[i], faults(i), fits);
      VerdictsFrom(s.world, jobs, i + 1, faults, fits, j);
      if jobs[i].status != Running {
        assert s.world == w;
      } else if k :| i + 1 <= k && Closes(s.world, jobs, k, faults, j) {
        assert s.world.archives == w.archives;
        assert Closes(w, jobs, k, faults, j);
      } else {
        JudgedEntry(w, jobs[i], faults(i), fits, j);
        assert jobs[i].id == j.id ==> Closes(w, jobs, i, faults, j);
      }
    }
  }

  /** Whatever the world holds and whatever fails, a completed reconciliation calls an open job
      a success exactly if the archive under its name is there, undamaged, and verified without
      an error, whoever published it. */
  lemma EveryVerdict(w: World, i: nat, faults: nat -> JobFaults, fits: seq<Job> -> bool, j: Job)
    requires DistinctIds(w.jobs) && i < |w.jobs| && w.jobs[i].status == Running
    requires Reconcile(w, w.jobs, 0, faults, fits).progress == Going
    requires j in Reconcile(w, w.jobs, 0, faults, fits).world.jobs && j.id == w.jobs[i].id
    ensures j.status == if Verified(w, w.jobs[i], faults(i)) then Success else Failed
  {
    VerdictsFrom(w, w.jobs, 0, faults, fits, j);
    var k: nat :| Closes(w, w.jobs, k, faults, j);
    assert w.jobs[k].id == w.jobs[i].id;
  }

  /** So an open job is judged truthfully exactly if its own archive verifies, or another's or
      none does not: an error in verifying, damage, and a shared name each make it false. */
  lemma JudgedTruthfully(w: World, i: nat, faults: nat -> JobFaults, j: Job, p: Past)
    requires Sound(w, p) && i < |w.jobs| && w.jobs[i].status == Running
    requires Reconcile(w, w.jobs, 0, faults, p.fits).progress == Going
    requires j in Reconcile(w, w.jobs, 0, faults, p.fits).world.jobs && j.id == w.jobs[i].id
    ensures Truthful(Reconcile(w, w.jobs, 0, faults, p.fits).world, j) <==> (Verified(w, w.jobs[i], faults(i)) <==> Owns(w, w.jobs[i]))
  {
    EveryVerdict(w, i, faults, p.fits, j);
    assert JobSound(w, w.jobs[i], p);
    ReconcileOnlyJudges(w, w.jobs, 0, faults, p.fits);
  }

  /* ---------- A publication that is denied ---------- */

  /** What the run would archive, after its job is recorded. */
  ghost function Gathered(w: World, req: Request): seq<Artifact> {
    Collected(req.sources, req.selection, w.jobs, |req.sources|)
  }

  /** What reaches publication once the job is started. */
  ghost predicate Gathers(w: World, req: Request, f: RunFaults) {
    && f.collect == NoFault && !Collision(req) && Gathered(w, req) != []
    && Valid(ManifestOf(req, Gathered(w, req))) && f.prepare == NoFault && Packs(ManifestOf(req, Gathered(w, req)))
  }

  lemma GatheredIsPublished(w: World, req: Request, f: RunFaults, fits: seq<Job> -> bool)
    requires Gathers(w, req, f)
    ensures Gather(w, req, f, fits) == Publish(w, req, LedgerArtifacts(Gathered(w, req)), f, fits)
  {
    assert Gather(w, req, f, fits) == Build(w, req, Gathered(w, req), f, fits);
  }

  /** The run gets as far as its publication. */
  ghost predicate Publishes(w: World, req: Request, f: RunFaults, fits: seq<Job> -> bool) {
    && f.load == NoFault
    && var s := Reconcile(w, w.jobs, 0, f.reconcile, fits);
    && s.progress == Going
    && var t := Store(s.world, Entry(req, Running, req.Name(), "", []), f.start, fits);
    && t.progress == Going
    && Gathers(t.world, req, f) && req.Name() !in t.world.archives
  }

  /** The ledger calls a job failed although its archive was published. */
  ghost predicate DeniesPublished(w: World, req: Request) {
    req.id in w.published && exists j :: j in w.jobs && j.id == req.id && j.status == Failed
  }

  lemma HandledEntry(w: World, req: Request, published: Option<seq<LedgerArtifact>>, cause: Cause, f: RunFaults, fits: seq<Job> -> bool)
    requires DistinctIds(w.jobs)
    requires forall j | j in w.jobs && j.id == req.id :: j.status != Failed
    ensures var v := Handle(w, req, published, cause, f, fits).world;
            && v.published == w.published
            && ((exists j :: j in v.jobs && j.id == req.id && j.status == Failed)
                <==> published.None? && TakesEffect(f.handler) && fits(Recorded(w.jobs, ClosingEntry(req, None, cause, f.text))))
  {
    RecordedMembers(w.jobs, ClosingEntry(req, published, cause, f.text));
  }

  lemma StoreOther(w: World, entry: Job, fault: Fault, fits: seq<Job> -> bool)
    requires entry.status != Failed && forall j | j in w.jobs && j.id == entry.id :: j.status != Failed
    ensures forall j | j in Store(w, entry, fault, fits).world.jobs && j.id == entry.id :: j.status != Failed
  {
    RecordedMembers(w.jobs, entry);
  }

  /** The publishing rename took effect and raised, and the failure is recorded. */
  ghost predicate LiesAndIsRecorded(jobs: seq<Job>, req: Request, f: RunFaults, fits: seq<Job> -> bool) {
    && f.publish.Fails? && f.publish.afterEffect && TakesEffect(f.handler)
    && fits(Recorded(jobs, ClosingEntry(req, None, After(f.publish).cause, f.text)))
  }

  lemma PublishingDenies(w: World, req: Request, artifacts: seq<LedgerArtifact>, f: RunFaults, p: Past)
    requires Unpublished(w, req, p)
    ensures DeniesPublished(Publish(w, req, artifacts, f, p.fits).world, req) <==>
              req.Name() !in w.archives && LiesAndIsRecorded(w.jobs, req, f, p.fits)
  {
    var s := Rename(w, req, artifacts, f.publish);
    if s.progress.Failing? {
      HandledEntry(s.world, req, None, s.progress.cause, f, p.fits);
    } else if s.progress == Going {
      if f.sync.Fails? {
        HandledEntry(s.world, req, Some(artifacts), After(f.sync).cause, f, p.fits);
      } else if f.sync == NoFault {
        var entry := Entry(req, Success, req.Name(), "", artifacts);
        StoreOther(s.world, entry, f.success, p.fits);
        RecordedDistinct(s.world.jobs, entry);
        var t := Store(s.world, entry, f.success, p.fits);
        if t.progress.Failing? {
          HandledEntry(t.world, req, Some(artifacts), t.progress.cause, f, p.fits);
        }
      }
    }
  }

  lemma GatheringDenies(w: World, req: Request, f: RunFaults, p: Past)
    requires Unpublished(w, req, p)
    ensures DeniesPublished(Gather(w, req, f, p.fits).world, req) <==>
              Gathers(w, req, f) && req.Name() !in w.archives && LiesAndIsRecorded(w.jobs, req, f, p.fits)
  {
    if Gathers(w, req, f) {
      GatheredIsPublished(w, req, f, p.fits);
      PublishingDenies(w, req, LedgerArtifacts(Gathered(w, req)), f, p);
    } else {
      NothingIsPublished(w, req, f, p.fits);
    }
  }

  lemma NothingIsPublished(w: World, req: Request, f: RunFaults, fits: seq<Job> -> bool)
    requires !Gathers(w, req, f)
    ensures Gather(w, req, f, fits).world.published == w.published && Gather(w, req, f, fits).world.archives == w.archives
  {
    if f.collect == NoFault && !Collision(req) && Gathered(w, req) != [] {
      NothingIsBuilt(w, req, Gathered(w, req), f, fits);
    }
  }

  lemma NothingIsBuilt(w: World, req: Request, collected: seq<Artifact>, f: RunFaults, fits: seq<Job> -> bool)
    requires !(Valid(ManifestOf(req, collected)) && f.prepare == NoFault && Packs(ManifestOf(req, collected)))
    ensures Build(w, req, collected, f, fits).world.published == w.published && Build(w, req, collected, f, fits).world.archives == w.archives
  {
  }

  /** The same from the start of the run's own job on. */
  lemma StartingDenies(v: World, req: Request, f: RunFaults, p: Past)
    requires Sound(v, p) && req.id !in p.requests && !p.honest
    ensures var before := Store(v, Entry(req, Running, req.Name(), "", []), f.start, p.fits);
            DeniesPublished(Start(v, req, f, p.fits).world, req) <==>
              && before.progress == Going && Gathers(before.world, req, f) && req.Name() !in before.world.archives
              && LiesAndIsRecorded(before.world.jobs, req, f, p.fits)
  {
    StartedIsUnpublished(v, req, f.start, p);
    var before := Store(v, Entry(req, Running, req.Name(), "", []), f.start, p.fits);
    if before.progress == Going {
      GatheringDenies(before.world, req, f, p.Asking(req));
    }
  }

  /** A run calls its own published archive a failure exactly when the publishing rename
      reported an error after it had taken effect and the failure could be recorded. */
  lemma DeniedExactlyAfterALyingRename(w: World, req: Request, f: RunFaults, p: Past)
    requires Sound(w, p) && req.id !in p.requests
    ensures var before := Store(Reconcile(w, w.jobs, 0, f.reconcile, p.fits).world, Entry(req, Running, req.Name(), "", []), f.start, p.fits);
            DeniesPublished(Run(w, req, f, p.fits).world, req) <==>
              Publishes(w, req, f, p.fits) && LiesAndIsRecorded(before.world.jobs, req, f, p.fits)
  {
    var q := p.(honest := false);
    ReconcileKeepsSound(w, w.jobs, 0, f.reconcile, q);
    var s := Reconcile(w, w.jobs, 0, f.reconcile, p.fits);
    if f.load == NoFault && s.progress == Going {
      StartingDenies(s.world, req, f, q);
    } else {
      ReconcileOnlyJudges(w, w.jobs, 0, f.reconcile, p.fits);
    }
  }

  ghost function NoFaults(): RunFaults {
    var faults: nat -> JobFaults := _ => JobFaults(NoFault, NoFault, NoFault);
    RunFaults(NoFault, faults, NoFault, NoFault, NoFault, NoFault, NoFault, NoFault, NoFault, NoFault, "")
  }

  /** Everything works, but the rename reports an error after its effect. */
  ghost function LyingRename(text: string): RunFaults {
    NoFaults().(publish := Fails(true, false), text := text)
  }

  /** The manifest of a sample is small enough. */
  predicate SmallSample(id: string, created: string, n: nat) {
    Stamped(id, created) && 0 < n <= MAX_MANIFEST_ARTIFACTS && 226 + |id| + |created| + 179 * n <= MAX_MANIFEST_BYTES
  }

  /** A small sample is published, whatever the ledger. */
  lemma SampleGathers(id: string, created: string, n: nat, w: World, f: RunFaults)
    requires SmallSample(id, created, n) && f.collect == NoFault && f.prepare == NoFault
    ensures Gathered(w, Sample(id, created, n)) == Transcripts(n) && Gathers(w, Sample(id, created, n), f)
  {
    TranscriptsAreCollected(n, w.jobs, n);
    TranscriptsDoNotCollide(n);
    SampleManifestIsValid(id, created, n);
    SampleManifestSize(id, created, n);
    assert Transcripts(n)[..n] == Transcripts(n);
  }

  /** Such a run, the first on its target, with room for its two entries. */
  lemma LyingFirstRun(req: Request, text: string, fits: seq<Job> -> bool)
    requires Gathers(EMPTY.(jobs := [Entry(req, Running, req.Name(), "", [])]), req, LyingRename(text))
    requires fits([Entry(req, Running, req.Name(), "", [])]) && fits([ClosingEntry(req, None, Other, text)])
    ensures DeniesPublished(Run(EMPTY, req, LyingRename(text), fits).world, req)
  {
    var f, running := LyingRename(text), Entry(req, Running, req.Name(), "", []);
    RecordedFirst([], running);
    RecordedFirst([running], ClosingEntry(req, None, Other, text));
    EmptyIsSound(FirstPast(true, fits));
    assert Reconcile(EMPTY, EMPTY.jobs, 0, f.reconcile, fits) == State(EMPTY, Going);
    assert Store(EMPTY, running, f.start, fits) == State(EMPTY.(jobs := [running]), Going);
    DeniedExactlyAfterALyingRename(EMPTY, req, f, FirstPast(true, fits));
  }

  /** With a ledger limited as it is. */
  lemma LyingRenameExample(id: string, created: string, n: nat, text: string)
    requires SmallSample(id, created, n) && PrintableAscii(text) && 0 < |text| <= MAX_ERROR_CHARS
    ensures DeniesPublished(Run(EMPTY, Sample(id, created, n), LyingRename(text), LedgerAccepts).world, Sample(id, created, n))
  {
    var req := Sample(id, created, n);
    OpenEntryIsAccepted(id, created, n);
    FailedEntryIsAccepted(id, created, n, text);
    assert ClosingEntry(req, None, Other, text) == Entry(req, Failed, "", text, []);
    SampleGathers(id, created, n, EMPTY.(jobs := [Entry(req, Running, req.Name(), "", [])]), LyingRename(text));
    LyingFirstRun(req, text, LedgerAccepts);
  }
}
