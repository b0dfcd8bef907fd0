/** Backup runs on one target: the ledger, the published archives, and crashes in between.

    `CreateBackup` first judges every interrupted job of earlier runs, then records its own
    job as running, collects, publishes the archive by one rename that never replaces a file,
    and records success.  Any call may raise before or after its effect, and the process may
    end at any call.  The method refines `Run`; the lemmas are about all sequences of runs. */
module BackupJob {
  import opened Wrappers
  import opened BackupState
  import opened BackupNames
  import opened BackupCollector
  import opened BackupManifest
  import opened RenderedSizes

  /** A published file: who published it, and whether it still verifies. */
  datatype Archive = Archive(owner: string, intact: bool, artifacts: seq<LedgerArtifact>)

  /** `published` remembers the jobs whose archive ever appeared under its name. */
  datatype World = World(jobs: seq<Job>, archives: map<string, Archive>, published: set<string>)

  /** What is asked of a run; the sources are given as the collector reads them. */
  datatype Request = Request(id: string, created: string, appVersion: string, mode: string, sources: seq<Artifact>, selection: set<Kind>) {
    predicate Encrypted() {
      mode != "off"
    }

    /** Where this run's archive is to appear. */
    function Name(): string {
      ArchiveName(id, created, Encrypted())
    }
  }

  datatype JobFaults = JobFaults(inspect: Fault, verify: Fault, bookkeeping: Fault)

  /** One fault for each call of a run that can fail, and what an error says of itself. */
  datatype RunFaults = RunFaults(load: Fault, reconcile: nat -> JobFaults, start: Fault, collect: Fault, skip: Fault,
                                 prepare: Fault, publish: Fault, sync: Fault, success: Fault, handler: Fault, text: string)

  datatype State = State(world: World, progress: Progress)

  datatype Ended = Returned(skipped: bool, warned: bool) | Raised | Crashed

  datatype Result = Result(world: World, ended: Ended)

  const INTERRUPTED := "backup interrupted before archive publication"
  const UNVERIFIED := "interrupted backup archive failed verification"
  const WARNING := "backup published but post-publish bookkeeping failed"
  const FAILURE := "backup job failed"
  const INTERRUPT := "backup job interrupted"
  const TOO_LARGE := "backup state is too large"
  const MAX_ERROR_CHARS := 512

  /* ---------- Steps ---------- */

  function Store(w: World, entry: Job, fault: Fault, fits: seq<Job> -> bool): State {
    var jobs := Recorded(w.jobs, entry);
    State(if fits(jobs) && TakesEffect(fault) then w.(jobs := jobs) else w,
          if fits(jobs) || fault != NoFault then After(fault) else Failing(Refused))
  }

  function ReconcileJob(w: World, job: Job, f: JobFaults, fits: seq<Job> -> bool): State {
    if job.status != Running then State(w, Going)
    else if !PlainName(job.archiveName) then State(w, Failing(Other))
    else if f.inspect != NoFault then State(w, After(f.inspect))
    else if job.archiveName !in w.archives then
      Store(w, job.(status := Failed, archiveName := "", error := INTERRUPTED, artifacts := []), f.bookkeeping, fits)
    else if f.verify.Crash? || (f.verify.Fails? && f.verify.interrupt) then State(w, After(f.verify))
    else if f.verify == NoFault && w.archives[job.archiveName].intact then
      Store(w, job.(status := Success, error := "", artifacts := w.archives[job.archiveName].artifacts), f.bookkeeping, fits)
    else
      Store(w, job.(status := Failed, error := UNVERIFIED, artifacts := []), f.bookkeeping, fits)
  }

  /** Judges the jobs of a snapshot of the ledger from the `i`-th on. */
  function Reconcile(w: World, jobs: seq<Job>, i: nat, faults: nat -> JobFaults, fits: seq<Job> -> bool): State
    requires i <= |jobs|
    decreases |jobs| - i
  {
    if i == |jobs| then State(w, Going)
    else
      var s := ReconcileJob(w, jobs[i], faults(i), fits);
      if s.progress == Going then Reconcile(s.world, jobs, i + 1, faults, fits) else s
  }

  function Entry(req: Request, status: Status, archiveName: string, error: string, artifacts: seq<LedgerArtifact>): Job {
    Job(req.id, status, req.created, archiveName, error, artifacts)
  }

  function LedgerArtifacts(collected: seq<Artifact>): seq<LedgerArtifact> {
    seq(|collected|, i requires 0 <= i < |collected| =>
      LedgerArtifact(collected[i].kind, collected[i].sourceIdentity, collected[i].size, collected[i].sha256, collected[i].mtimeNs))
  }

  /** What a failed run records of its error. */
  function ErrorText(cause: Cause, text: string): string {
    match cause
    case Interrupt => INTERRUPT
    case Refused => TOO_LARGE
    case Other => if text == "" then FAILURE else if |text| > MAX_ERROR_CHARS then text[..MAX_ERROR_CHARS] else text
  }

  /** The entry of a run that raised: a published run is still a success, any other a failure. */
  function ClosingEntry(req: Request, published: Option<seq<LedgerArtifact>>, cause: Cause, text: string): Job {
    if published.Some? then Entry(req, Success, req.Name(), if cause == Interrupt then "" else WARNING, published.value)
    else Entry(req, Failed, "", ErrorText(cause, text), [])
  }

  /** The handlers. */
  function Handle(w: World, req: Request, published: Option<seq<LedgerArtifact>>, cause: Cause, f: RunFaults,
                  fits: seq<Job> -> bool): Result
  {
    var s := Store(w, ClosingEntry(req, published, cause, f.text), f.handler, fits);
    Result(s.world,
           if s.progress == Dead then Crashed
           else if published.Some? && cause != Interrupt && s.progress != Failing(Interrupt) then Returned(false, true)
           else Raised)
  }

  ghost function Run(w: World, req: Request, f: RunFaults, fits: seq<Job> -> bool): Result {
    if f.load != NoFault then Result(w, if f.load.Crash? then Crashed else Raised)
    else
      var s := Reconcile(w, w.jobs, 0, f.reconcile, fits);
      if s.progress == Going then Start(s.world, req, f, fits)
      else Result(s.world, if s.progress == Dead then Crashed else Raised)
  }

  ghost function Start(w: World, req: Request, f: RunFaults, fits: seq<Job> -> bool): Result {
    var s := Store(w, Entry(req, Running, req.Name(), "", []), f.start, fits);
    match s.progress
    case Dead => Result(s.world, Crashed)
    case Failing(cause) => Handle(s.world, req, None, cause, f, fits)
    case Going => Gather(s.world, req, f, fits)
  }

  ghost predicate Collision(req: Request) {
    exists i, j :: Collides(req.sources, req.selection, i, j)
  }

  ghost function Gather(w: World, req: Request, f: RunFaults, fits: seq<Job> -> bool): Result {
    var collected := Collected(req.sources, req.selection, w.jobs, |req.sources|);
    if f.collect.Crash? then Result(w, Crashed)
    else if f.collect.Fails? then Handle(w, req, None, After(f.collect).cause, f, fits)
    else if Collision(req) then Handle(w, req, None, Other, f, fits)
    else if collected == [] then
      var s := Store(w, Entry(req, Skipped, "", "", []), f.skip, fits);
      match s.progress
      case Dead => Result(s.world, Crashed)
      case Failing(cause) => Handle(s.world, req, None, cause, f, fits)
      case Going => Result(s.world, Returned(true, false))
    else Build(w, req, collected, f, fits)
  }

  function ManifestOf(req: Request, collected: seq<Artifact>): Manifest {
    Manifest(req.id, req.created, req.appVersion, req.Encrypted(), req.mode, if req.Encrypted() then 2 else 0,
             EffectiveSelection(req.selection, collected), collected, [])
  }

  /** The artifacts can be staged, and the manifest is small enough to be read back. */
  predicate Packs(m: Manifest) {
    PathsApart(m.artifacts) && ManifestSize(m) <= MAX_MANIFEST_BYTES
  }

  /** Manifest, staging, archive, verification and encryption, all under scratch names. */
  ghost function Build(w: World, req: Request, collected: seq<Artifact>, f: RunFaults, fits: seq<Job> -> bool): Result {
    if !Valid(ManifestOf(req, collected)) then Handle(w, req, None, Other, f, fits)
    else if f.prepare.Crash? then Result(w, Crashed)
    else if f.prepare.Fails? then Handle(w, req, None, After(f.prepare).cause, f, fits)
    else if !Packs(ManifestOf(req, collected)) then Handle(w, req, None, Other, f, fits)
    else Publish(w, req, LedgerArtifacts(collected), f, fits)
  }

  /** The rename that publishes the archive; an existing name is never replaced. */
  function Rename(w: World, req: Request, artifacts: seq<LedgerArtifact>, fault: Fault): State {
    if req.Name() in w.archives then State(w, if fault == NoFault then Failing(Other) else After(fault))
    else
      State(if TakesEffect(fault)
            then World(w.jobs, w.archives[req.Name() := Archive(req.id, true, artifacts)], w.published + {req.id})
            else w,
            After(fault))
  }

  ghost function Publish(w: World, req: Request, artifacts: seq<LedgerArtifact>, f: RunFaults, fits: seq<Job> -> bool): Result {
    var s := Rename(w, req, artifacts, f.publish);
    match s.progress
    case Dead => Result(s.world, Crashed)
    case Failing(cause) => Handle(s.world, req, None, cause, f, fits)
    case Going => Finish(s.world, req, artifacts, f, fits)
  }

  ghost function Finish(w: World, req: Request, artifacts: seq<LedgerArtifact>, f: RunFaults, fits: seq<Job> -> bool): Result {
    if f.sync.Crash? then Result(w, Crashed)
    else if f.sync.Fails? then Handle(w, req, Some(artifacts), After(f.sync).cause, f, fits)
    else
      var s := Store(w, Entry(req, Success, req.Name(), "", artifacts), f.success, fits);
      match s.progress
      case Dead => Result(s.world, Crashed)
      case Failing(cause) => Handle(s.world, req, Some(artifacts), cause, f, fits)
      case Going => Result(s.world, Returned(false, false))
  }

  /* ---------- The target ---------- */

  class BackupTarget {
    const store: BackupStateStore
    var archives: map<string, Archive>
    ghost var published: set<string>

    constructor (store: BackupStateStore)
      ensures this.store == store && Now() == World(store.jobs, map[], {})
    {
      this.store, archives, published := store, map[], {};
    }

    ghost function Now(): World
      reads this, store
    {
      World(store.jobs, archives, published)
    }

    /** Records one entry in the ledger. */
    method Record(entry: Job, fault: Fault) returns (progress: Progress)
      modifies store
      ensures State(Now(), progress) == Store(old(Now()), entry, fault, store.fits)
    {
      progress := store.RecordJob(entry, fault);
    }

    /** Judges one job: no archive is a failure, an archive that verifies a success. */
    method JudgeJob(job: Job, f: JobFaults) returns (progress: Progress)
      modifies store
      ensures State(Now(), progress) == ReconcileJob(old(Now()), job, f, store.fits)
    {
      if job.status != Running {
        return Going;
      }
      if !PlainName(job.archiveName) {
        return Failing(Other);
      }
      if f.inspect != NoFault {
        return After(f.inspect);
      }
      if job.archiveName !in archives {
        progress := Record(job.(status := Failed, archiveName := "", error := INTERRUPTED, artifacts := []), f.bookkeeping);
        return;
      }
      if f.verify.Crash? || (f.verify.Fails? && f.verify.interrupt) {
        return After(f.verify);
      }
      var archive := archives[job.archiveName];
      if f.verify == NoFault && archive.intact {
        progress := Record(job.(status := Success, error := "", artifacts := archive.artifacts), f.bookkeeping);
      } else {
        progress := Record(job.(status := Failed, error := UNVERIFIED, artifacts := []), f.bookkeeping);
      }
    }

    /** `_reconcile_interrupted_jobs`. */
    method ReconcileInterruptedJobs(faults: nat -> JobFaults) returns (progress: Progress)
      modifies store
      ensures State(Now(), progress) == Reconcile(old(Now()), old(store.jobs), 0, faults, store.fits)
    {
      var jobs := store.jobs;
      for i := 0 to |jobs|
        invariant Reconcile(old(Now()), jobs, 0, faults, store.fits) == Reconcile(Now(), jobs, i, faults, store.fits)
      {
        progress := JudgeJob(jobs[i], faults(i));
        if progress != Going {
          return;
        }
      }
      progress := Going;
    }

    /** The archive appears under its name all at once, or not at all. */
    method RenameArchive(req: Request, artifacts: seq<LedgerArtifact>, fault: Fault) returns (progress: Progress)
      modifies this
      ensures State(Now(), progress) == Rename(old(Now()), req, artifacts, fault)
    {
      if req.Name() in archives {
        return if fault == NoFault then Failing(Other) else After(fault);
      }
      if TakesEffect(fault) {
        archives := archives[req.Name() := Archive(req.id, true, artifacts)];
        published := published + {req.id};
      }
      progress := After(fault);
    }

    method HandleError(req: Request, published: Option<seq<LedgerArtifact>>, cause: Cause, f: RunFaults) returns (ended: Ended)
      modifies store
      ensures Result(Now(), ended) == Handle(old(Now()), req, published, cause, f, store.fits)
    {
      var progress;
      if published.Some? {
        progress := Record(Entry(req, Success, req.Name(), if cause == Interrupt then "" else WARNING, published.value), f.handler);
      } else {
        progress := Record(Entry(req, Failed, "", ErrorText(cause, f.text), []), f.handler);
      }
      if progress == Dead {
        return Crashed;
      }
      ended := if published.Some? && cause != Interrupt && progress != Failing(Interrupt) then Returned(false, true) else Raised;
    }

    method PublishArchive(req: Request, artifacts: seq<LedgerArtifact>, f: RunFaults) returns (ended: Ended)
      modifies this, store
      ensures Result(Now(), ended) == Publish(old(Now()), req, artifacts, f, store.fits)
    {
      var progress := RenameArchive(req, artifacts, f.publish);
      if progress == Dead {
        return Crashed;
      }
      if progress.Failing? {
        ended := HandleError(req, None, progress.cause, f);
        return;
      }
      if f.sync.Crash? {
        return Crashed;
      }
      if f.sync.Fails? {
        ended := HandleError(req, Some(artifacts), After(f.sync).cause, f);
        return;
      }
      progress := Record(Entry(req, Success, req.Name(), "", artifacts), f.success);
      match progress
      case Dead => return Crashed;
      case Failing(cause) => ended := HandleError(req, Some(artifacts), cause, f);
      case Going => ended := Returned(false, false);
    }

    method BuildAndPublish(req: Request, collected: seq<Artifact>, f: RunFaults) returns (ended: Ended)
      modifies this, store
      ensures Result(Now(), ended) == Build(old(Now()), req, collected, f, store.fits)
    {
      var manifest := ManifestOf(req, collected);
      if !Valid(manifest) {
        ended := HandleError(req, None, Other, f);
        return;
      }
      if f.prepare.Crash? {
        return Crashed;
      }
      if f.prepare.Fails? {
        ended := HandleError(req, None, After(f.prepare).cause, f);
        return;
      }
      if !Packs(manifest) {
        ended := HandleError(req, None, Other, f);
        return;
      }
      ended := PublishArchive(req, LedgerArtifacts(collected), f);
    }

    method GatherAndPublish(req: Request, f: RunFaults) returns (ended: Ended)
      modifies this, store
      ensures Result(Now(), ended) == Gather(old(Now()), req, f, store.fits)
    {
      if f.collect.Crash? {
        return Crashed;
      }
      if f.collect.Fails? {
        ended := HandleError(req, None, After(f.collect).cause, f);
        return;
      }
      var collected := Collect(req.sources, req.selection, store.jobs);
      if collected.None? {
        ended := HandleError(req, None, Other, f);
        return;
      }
      assert !Collision(req);
      if collected.value == [] {
        var progress := Record(Entry(req, Skipped, "", "", []), f.skip);
        match progress {
          case Dead => ended := Crashed;
          case Failing(cause) => ended := HandleError(req, None, cause, f);
          case Going => ended := Returned(true, false);
        }
        return;
      }
      ended := BuildAndPublish(req, collected.value, f);
    }

    /** `create_backup` under the target's lock. */
    method CreateBackup(req: Request, f: RunFaults) returns (ended: Ended)
      modifies this, store
      ensures Result(Now(), ended) == Run(old(Now()), req, f, store.fits)
    {
      if f.load != NoFault {
        return if f.load.Crash? then Crashed else Raised;
      }
      var progress := ReconcileInterruptedJobs(f.reconcile);
      if progress != Going {
        return if progress == Dead then Crashed else Raised;
      }
      progress := Record(Entry(req, Running, req.Name(), "", []), f.start);
      match progress
      case Dead => ended := Crashed;
      case Failing(cause) => ended := HandleError(req, None, cause, f);
      case Going => ended := GatherAndPublish(req, f);
    }
  }
}
