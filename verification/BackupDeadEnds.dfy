/** Two ways from the empty ledger, without any fault, into a world that no later run changes. */
module BackupDeadEnds {
  import opened Wrappers
  import opened BackupState
  import opened BackupNames
  import opened RenderedSizes
  import opened BackupJob
  import opened BackupRuns
  import opened BackupVerdicts
  import opened BackupNamesakes
  import opened BackupRecovery
  import opened BackupSamples

  /** Such a run leaves recovery stuck exactly if the ledger can hold the success of the archive
      neither with nor without the warning. */
  lemma FirstRunSticks(req: Request, fits: seq<Job> -> bool)
    requires GathersFirst(req) && PlainName(req.Name()) && fits([Open(req)])
    ensures var r := Run(EMPTY, req, NoFaults(), fits);
            && r.ended.Returned? && req.id in r.world.published
            && (Stuck(r.world, fits) <==> !fits([Own(req)]) && !fits([Warned(req)]))
  {
    FirstRun(req, fits);
    if !fits([Own(req)]) && !fits([Warned(req)]) {
      LeftOpenIsStuck(req, fits);
    }
  }

  lemma LeftOpenIsStuck(req: Request, fits: seq<Job> -> bool)
    requires !fits([Own(req)])
    ensures Stuck(Left(req, [Open(req)]), fits)
  {
    var w := Left(req, [Open(req)]);
    RecordedFirst(w.jobs, Own(req));
    assert Verdict(w, w.jobs[0]) == Own(req);
    assert Judged(w, w.jobs, 0) == w.jobs;
    assert Judged(w, w.jobs, 1) == [Own(req)];
    assert FirstOpen(w, 0) && !Passes(w, w.jobs, 0, fits);
  }

  /* ---------- A success that is too large for the ledger ---------- */

  lemma LargeSuccess(id: string, created: string, n: nat, error: string)
    requires SmallSample(id, created, n) && LEDGER_ENTRY * n > MAX_BACKUP_STATE_BYTES
    ensures !LedgerAccepts([Own(Sample(id, created, n)).(error := error)])
  {
    var req := Sample(id, created, n);
    SampleGathers(id, created, n, FirstWorld(req), NoFaults());
    LedgerTranscriptsAreNormal(n);
    ArtifactsTakeRoom(Own(req).(error := error));
    AcceptsOne(Own(req).(error := error));
  }

  lemma ArtifactsTakeRoom(j: Job)
    ensures JobSize(j) >= ItemsSize(j.artifacts, LedgerArtifactSize)
  {
  }

  /** More transcripts than the ledger can list, though fewer than the manifest can, say four
      thousand: the first run publishes and returns, and no later run changes anything. */
  lemma LargeBackupSticks(id: string, created: string, n: nat, attempts: seq<Attempt>)
    requires SmallSample(id, created, n) && LEDGER_ENTRY * n > MAX_BACKUP_STATE_BYTES
    requires Later(Run(EMPTY, Sample(id, created, n), NoFaults(), LedgerAccepts).world, attempts)
    ensures var r := Run(EMPTY, Sample(id, created, n), NoFaults(), LedgerAccepts);
            && r.ended.Returned? && id in r.world.published
            && Stuck(r.world, LedgerAccepts) && Runs(r.world, attempts, LedgerAccepts) == r.world
  {
    var req := Sample(id, created, n);
    SampleGathers(id, created, n, FirstWorld(req), NoFaults());
    SampleName(id, created, n);
    OpenEntryIsAccepted(id, created, n);
    LargeSuccess(id, created, n, "");
    LargeSuccess(id, created, n, WARNING);
    FirstRunSticks(req, LedgerAccepts);
    BarredForEver(Run(EMPTY, req, NoFaults(), LedgerAccepts).world, attempts, LedgerAccepts);
  }

  const MANY := 4_000

  lemma FourThousandAreLarge(id: string, created: string)
    requires Stamped(id, created)
    ensures SmallSample(id, created, MANY) && LEDGER_ENTRY * MANY > MAX_BACKUP_STATE_BYTES
  {
  }

  /* ---------- A ledger with no room for another entry ---------- */

  const FILLING := 3_528

  /** An id that fills up what the transcripts leave. */
  function FillingId(created: string): string
    requires |Timestamp(created)| + 2 * |created| <= 192
  {
    seq(256 - |Timestamp(created)| - 2 * |created|, _ => 'a')
  }

  lemma FillingIdIsStamped(created: string)
    requires PrintableAscii(created) && 0 < |created| <= 64 && '/' !in created
    ensures |Timestamp(created)| + 2 * |created| <= 192 && Stamped(FillingId(created), created)
    ensures 16 <= |FillingId(created)| <= 256 && |Short(FillingId(created))| == 16
  {
    NameIsPrintable("", created);
  }

  lemma FillingSuccess(created: string)
    requires PrintableAscii(created) && 0 < |created| <= 64 && '/' !in created
    ensures |Timestamp(created)| + 2 * |created| <= 192
    ensures var req := Sample(FillingId(created), created, FILLING);
            && GathersFirst(req) && PlainName(req.Name()) && LedgerAccepts([Open(req)]) && LedgerAccepts([Own(req)])
            && LedgerSize([Own(req)]) == MAX_BACKUP_STATE_BYTES
  {
    FillingIdIsStamped(created);
    var id := FillingId(created);
    var req := Sample(id, created, FILLING);
    assert SmallSample(id, created, FILLING);
    SampleGathers(id, created, FILLING, FirstWorld(req), NoFaults());
    SampleName(id, created, FILLING);
    OpenEntryIsAccepted(id, created, FILLING);
    FilledEntry(id, created, FILLING, FirstArtifacts(req));
    LedgerOfOne(Own(req));
    AcceptsOne(Own(req));
  }

  lemma FilledEntry(id: string, created: string, n: nat, artifacts: seq<LedgerArtifact>)
    requires Stamped(id, created) && |Short(id)| == 16 && |id| + |Timestamp(created)| + 2 * |created| == 256
    requires 0 < n <= 10_000 && LEDGER_ENTRY * n == 511_560 && artifacts == LedgerArtifacts(Transcripts(n))
    ensures var j := SampleEntry(id, created, n, Success, "", artifacts);
            NormalJob(j) && JobSize(j) + 31 == MAX_BACKUP_STATE_BYTES
  {
    LedgerTranscriptsAreNormal(n);
    SampleEntryIsNormal(id, created, n, Success, "", artifacts);
    SuccessSize(id, created, n, artifacts);
  }

  lemma NoRoomForAnother(x: Job, y: Job)
    requires LedgerSize([x]) == MAX_BACKUP_STATE_BYTES && x.id != y.id
    ensures !LedgerAccepts(Recorded([x], y))
  {
    RecordedSecond(x, [x], y);
    LedgerAppended([x], y);
    assert [x] + [y] == [x, y];
  }

  /** A lone success that fills the ledger: nothing to recover, and no room for any new run. */
  lemma FilledWorldIsBarred(w: World, x: Job)
    requires w.jobs == [x] && x.status == Success && LedgerSize([x]) == MAX_BACKUP_STATE_BYTES
    ensures !HasOpen(w) && !Stuck(w, LedgerAccepts) && forall other | IsNew(w, other) :: Barred(w, other, LedgerAccepts)
  {
    assert x in w.jobs;
    forall other | IsNew(w, other) ensures Barred(w, other, LedgerAccepts) {
      NoRoomForAnother(x, Open(other));
      forall cause, text ensures !LedgerAccepts(Recorded(w.jobs, ClosingEntry(other, None, cause, text))) {
        NoRoomForAnother(x, ClosingEntry(other, None, cause, text));
      }
    }
  }

  /** A success that fills the ledger to the last byte: no job is open, and no later run with an
      id of its own changes anything. */
  lemma FullLedgerSticks(created: string, attempts: seq<Attempt>)
    requires PrintableAscii(created) && 0 < |created| <= 64 && '/' !in created
    requires |Timestamp(created)| + 2 * |created| <= 192
    requires Later(Run(EMPTY, Sample(FillingId(created), created, FILLING), NoFaults(), LedgerAccepts).world, attempts)
    ensures var r := Run(EMPTY, Sample(FillingId(created), created, FILLING), NoFaults(), LedgerAccepts);
            && r.ended == Returned(false, false) && !HasOpen(r.world) && !Stuck(r.world, LedgerAccepts)
            && Runs(r.world, attempts, LedgerAccepts) == r.world
  {
    var req := Sample(FillingId(created), created, FILLING);
    FillingSuccess(created);
    FirstRun(req, LedgerAccepts);
    FilledWorldIsBarred(Left(req, [Own(req)]), Own(req));
    BarredForEver(Left(req, [Own(req)]), attempts, LedgerAccepts);
  }
}
