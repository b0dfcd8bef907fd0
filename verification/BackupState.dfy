/** The ledger of backup jobs: at most one entry a job, the newest last, the oldest evicted. */
module BackupState {
  const MAX_BACKUP_STATE_JOBS := 256

  datatype Status = Running | Success | Failed | Skipped

  /** What the ledger remembers of an archived artifact. */
  datatype LedgerArtifact = LedgerArtifact(kind: Kind, sourceIdentity: string, size: nat, sha256: string, mtimeNs: nat)

  datatype Kind = Config | Transcript | Audio

  datatype Job = Job(id: string, status: Status, created: string, archiveName: string, error: string, artifacts: seq<LedgerArtifact>)

  function WithoutJob(jobs: seq<Job>, id: string): seq<Job> {
    if jobs == [] then []
    else if jobs[0].id == id then WithoutJob(jobs[1..], id)
    else [jobs[0]] + WithoutJob(jobs[1..], id)
  }

  function Newest(jobs: seq<Job>): seq<Job> {
    if |jobs| > MAX_BACKUP_STATE_JOBS then jobs[|jobs| - MAX_BACKUP_STATE_JOBS..] else jobs
  }

  /** The ledger after an entry is recorded. */
  function Recorded(jobs: seq<Job>, entry: Job): seq<Job> {
    Newest(WithoutJob(jobs, entry.id) + [entry])
  }

  predicate DistinctIds(jobs: seq<Job>) {
    forall i, j | 0 <= i < j < |jobs| :: jobs[i].id != jobs[j].id
  }

  lemma {:induction false} WithoutJobKeeps(jobs: seq<Job>, id: string)
    ensures forall j :: j in WithoutJob(jobs, id) <==> j in jobs && j.id != id
    ensures |WithoutJob(jobs, id)| <= |jobs|
    ensures (exists j :: j in jobs && j.id == id) ==> |WithoutJob(jobs, id)| < |jobs|
  {
    if jobs == [] {
    } else {
      WithoutJobKeeps(jobs[1..], id);
      assert jobs == [jobs[0]] + jobs[1..];
    }
  }

  lemma {:induction false} WithoutJobDistinct(jobs: seq<Job>, id: string)
    requires DistinctIds(jobs)
    ensures DistinctIds(WithoutJob(jobs, id))
  {
    if jobs == [] {
    } else {
      var rest := WithoutJob(jobs[1..], id);
      WithoutJobDistinct(jobs[1..], id);
      WithoutJobKeeps(jobs[1..], id);
      forall k | 0 <= k < |rest| ensures rest[k].id != jobs[0].id {
        assert rest[k] in jobs[1..];
      }
    }
  }

  /** The entry is the newest and every other entry was there before. */
  lemma RecordedMembers(jobs: seq<Job>, entry: Job)
    ensures |Recorded(jobs, entry)| <= MAX_BACKUP_STATE_JOBS
    ensures Recorded(jobs, entry) != [] && Recorded(jobs, entry)[|Recorded(jobs, entry)| - 1] == entry
    ensures forall j | j in Recorded(jobs, entry) :: j == entry || (j in jobs && j.id != entry.id)
  {
    WithoutJobKeeps(jobs, entry.id);
    var all := WithoutJob(jobs, entry.id) + [entry];
    forall j | j in Recorded(jobs, entry) ensures j == entry || (j in jobs && j.id != entry.id) {
      assert j in all;
    }
  }

  lemma RecordedDistinct(jobs: seq<Job>, entry: Job)
    requires DistinctIds(jobs)
    ensures DistinctIds(Recorded(jobs, entry))
  {
    WithoutJobKeeps(jobs, entry.id);
    WithoutJobDistinct(jobs, entry.id);
    var others := WithoutJob(jobs, entry.id);
    forall k | 0 <= k < |others| ensures others[k].id != entry.id {
      assert others[k] in others;
    }
  }

  /** Another entry is lost only to the limit, and then it is the oldest one. */
  lemma RecordedEvictsOldest(jobs: seq<Job>, entry: Job)
    requires |jobs| <= MAX_BACKUP_STATE_JOBS
    ensures |jobs| < MAX_BACKUP_STATE_JOBS || (exists j :: j in jobs && j.id == entry.id)
            ==> forall j | j in jobs && j.id != entry.id :: j in Recorded(jobs, entry)
    ensures |jobs| == MAX_BACKUP_STATE_JOBS && (forall j | j in jobs :: j.id != entry.id)
            ==> Recorded(jobs, entry) == jobs[1..] + [entry]
  {
    WithoutJobKeeps(jobs, entry.id);
    if forall j | j in jobs :: j.id != entry.id {
      NothingWithout(jobs, entry.id);
    }
  }

  lemma {:induction false} NothingWithout(jobs: seq<Job>, id: string)
    requires forall j | j in jobs :: j.id != id
    ensures WithoutJob(jobs, id) == jobs
  {
    if jobs == [] {
    } else {
      assert jobs[0] in jobs;
      NothingWithout(jobs[1..], id);
    }
  }

  /** A fault in a call: it may raise before or after its effect, or the process may end there. */
  datatype Fault = NoFault | Fails(afterEffect: bool, interrupt: bool) | Crash(afterEffect: bool)

  predicate TakesEffect(fault: Fault) {
    fault == NoFault || fault.afterEffect
  }

  /** Why a step raised: an interrupt, a ledger that may not be written, or any other error. */
  datatype Cause = Interrupt | Refused | Other

  datatype Progress = Going | Failing(cause: Cause) | Dead

  function After(fault: Fault): Progress {
    match fault
    case NoFault => Going
    case Fails(_, interrupt) => Failing(if interrupt then Interrupt else Other)
    case Crash(_) => Dead
  }

  method OtherJobs(jobs: seq<Job>, id: string) returns (kept: seq<Job>)
    ensures kept == WithoutJob(jobs, id)
  {
    kept := [];
    for i := 0 to |jobs|
      invariant kept + WithoutJob(jobs[i..], id) == WithoutJob(jobs, id)
    {
      assert jobs[i..][1..] == jobs[i + 1..];
      ghost var rest := WithoutJob(jobs[i + 1..], id);
      if jobs[i].id != id {
        assert kept + ([jobs[i]] + rest) == (kept + [jobs[i]]) + rest;
        kept := kept + [jobs[i]];
      }
    }
    assert jobs[|jobs|..] == [];
  }

  /** The lock-protected ledger file; `fits` says which ledgers may be written. */
  class BackupStateStore {
    const fits: seq<Job> -> bool
    var jobs: seq<Job>

    constructor (jobs: seq<Job>, fits: seq<Job> -> bool)
      ensures this.jobs == jobs && this.fits == fits
    {
      this.jobs, this.fits := jobs, fits;
    }

    /** Read, replace or append, keep the newest, write atomically. */
    method RecordJob(entry: Job, fault: Fault) returns (progress: Progress)
      modifies this
      ensures jobs == if fits(Recorded(old(jobs), entry)) && TakesEffect(fault) then Recorded(old(jobs), entry) else old(jobs)
      ensures progress == if fits(Recorded(old(jobs), entry)) || fault != NoFault then After(fault) else Failing(Refused)
    {
      var kept := OtherJobs(jobs, entry.id);
      kept := kept + [entry];
      if |kept| > MAX_BACKUP_STATE_JOBS {
        kept := kept[|kept| - MAX_BACKUP_STATE_JOBS..];
      }
      assert kept == Recorded(jobs, entry);
      if !fits(kept) {
        return if fault != NoFault then After(fault) else Failing(Refused);
      }
      if TakesEffect(fault) {
        jobs := kept;
      }
      progress := After(fault);
    }
  }

  /** Some successful job archived the same bytes from the same source. */
  predicate HasUnchanged(jobs: seq<Job>, kind: Kind, sourceIdentity: string, size: nat, sha256: string) {
    exists j, a :: j in jobs && j.status == Success && a in j.artifacts
                   && a.kind == kind && a.sourceIdentity == sourceIdentity && a.size == size && a.sha256 == sha256
  }
}
