/** Two jobs that ask for one archive name: when the ledger ends wrong about the second. */
module BackupNamesakes {
  import opened Wrappers
  import opened BackupState
  import opened BackupNames
  import opened BackupCollector
  import opened RenderedSizes
  import opened BackupJob
  import opened BackupRuns
  import opened BackupVerdicts
  import opened BackupSamples

  /* ---------- What one run leaves alone ---------- */

  /** Archives stay, nothing but the run's own job is published, its entry does not claim a
      publication that did not happen, and once there it stays. */
  ghost predicate RunFrame(w: World, v: World, req: Request) {
    && (forall n | n in w.archives :: n in v.archives && v.archives[n] == w.archives[n])
    && w.published <= v.published <= w.published + {req.id}
    && (forall j | j in v.jobs && j.id == req.id && j.status == Success :: req.id in v.published)
    && (HasEntry(w.jobs, req.id) ==> HasEntry(v.jobs, req.id))
  }

  lemma StoringFrames(w: World, v: World, req: Request, entry: Job, fault: Fault, fits: seq<Job> -> bool)
    requires RunFrame(w, v, req) && entry.id == req.id && (entry.status == Success ==> req.id in v.published)
    ensures RunFrame(w, Store(v, entry, fault, fits).world, req)
  {
    RecordedMembers(v.jobs, entry);
    assert entry in Recorded(v.jobs, entry);
  }

  lemma HandlingFrames(w: World, v: World, req: Request, published: Option<seq<LedgerArtifact>>, cause: Cause, f: RunFaults,
                       fits: seq<Job> -> bool)
    requires RunFrame(w, v, req) && (published.Some? ==> req.id in v.published)
    ensures RunFrame(w, Handle(v, req, published, cause, f, fits).world, req)
  {
    StoringFrames(w, v, req, ClosingEntry(req, published, cause, f.text), f.handler, fits);
  }

  lemma FinishingFrames(w: World, v: World, req: Request, artifacts: seq<LedgerArtifact>, f: RunFaults, fits: seq<Job> -> bool)
    requires RunFrame(w, v, req) && req.id in v.published
    ensures RunFrame(w, Finish(v, req, artifacts, f, fits).world, req)
  {
    var entry := Entry(req, Success, req.Name(), "", artifacts);
    StoringFrames(w, v, req, entry, f.success, fits);
    var s := Store(v, entry, f.success, fits);
    HandlingFrames(w, v, req, Some(artifacts), Interrupt, f, fits);
    HandlingFrames(w, v, req, Some(artifacts), Other, f, fits);
    if s.progress.Failing? {
      HandlingFrames(w, s.world, req, Some(artifacts), s.progress.cause, f, fits);
    }
  }

  lemma PublishingFrames(w: World, v: World, req: Request, artifacts: seq<LedgerArtifact>, f: RunFaults, fits: seq<Job> -> bool)
    requires RunFrame(w, v, req)
    ensures RunFrame(w, Publish(v, req, artifacts, f, fits).world, req)
  {
    var s := Rename(v, req, artifacts, f.publish);
    assert RunFrame(w, s.world, req);
    if s.progress.Failing? {
      HandlingFrames(w, s.world, req, None, s.progress.cause, f, fits);
    } else if s.progress == Going {
      FinishingFrames(w, s.world, req, artifacts, f, fits);
    }
  }

  lemma BuildingFrames(w: World, v: World, req: Request, collected: seq<Artifact>, f: RunFaults, fits: seq<Job> -> bool)
    requires RunFrame(w, v, req)
    ensures RunFrame(w, Build(v, req, collected, f, fits).world, req)
  {
    HandlingFrames(w, v, req, None, Other, f, fits);
    HandlingFrames(w, v, req, None, Interrupt, f, fits);
    PublishingFrames(w, v, req, LedgerArtifacts(collected), f, fits);
  }

  lemma SkippingFrames(w: World, v: World, req: Request, f: RunFaults, fits: seq<Job> -> bool)
    requires RunFrame(w, v, req)
    ensures var s := Store(v, Entry(req, Skipped, "", "", []), f.skip, fits);
            RunFrame(w, s.world, req) && (s.progress.Failing? ==> RunFrame(w, Handle(s.world, req, None, s.progress.cause, f, fits).world, req))
  {
    var skipped := Entry(req, Skipped, "", "", []);
    StoringFrames(w, v, req, skipped, f.skip, fits);
    var s := Store(v, skipped, f.skip, fits);
    if s.progress.Failing? {
      HandlingFrames(w, s.world, req, None, s.progress.cause, f, fits);
    }
  }

  lemma GatheringFrames(w: World, v: World, req: Request, f: RunFaults, fits: seq<Job> -> bool)
    requires RunFrame(w, v, req)
    ensures RunFrame(w, Gather(v, req, f, fits).world, req)
  {
    if f.collect.Crash? {
    } else if f.collect.Fails? {
      HandlingFrames(w, v, req, None, After(f.collect).cause, f, fits);
    } else if Collision(req) {
      HandlingFrames(w, v, req, None, Other, f, fits);
    } else if Gathered(v, req) == [] {
      SkippingFrames(w, v, req, f, fits);
    } else {
      BuildingFrames(w, v, req, Gathered(v, req), f, fits);
    }
  }

  lemma StartingFrames(w: World, v: World, req: Request, f: RunFaults, fits: seq<Job> -> bool)
    requires RunFrame(w, v, req)
    ensures RunFrame(w, Start(v, req, f, fits).world, req)
  {
    var entry := Entry(req, Running, req.Name(), "", []);
    StoringFrames(w, v, req, entry, f.start, fits);
    var s := Store(v, entry, f.start, fits);
    if s.progress.Failing? {
      HandlingFrames(w, s.world, req, None, s.progress.cause, f, fits);
    }
    GatheringFrames(w, s.world, req, f, fits);
  }

  lemma RunningFrames(w: World, req: Request, f: RunFaults, p: Past)
    requires Sound(w, p) && req.id !in p.requests && !p.honest
    ensures RunFrame(w, Run(w, req, f, p.fits).world, req)
  {
    ReconcileKeepsSound(w, w.jobs, 0, f.reconcile, p);
    ReconcileOnlyJudges(w, w.jobs, 0, f.reconcile, p.fits);
    var v := Reconcile(w, w.jobs, 0, f.reconcile, p.fits).world;
    forall j | j in v.jobs ensures j.id != req.id {
      assert JobSound(v, j, p);
    }
    StartingFrames(w, v, req, f, p.fits);
  }

  /* ---------- A first run ---------- */

  ghost function FirstWorld(req: Request): World {
    EMPTY.(jobs := [Entry(req, Running, req.Name(), "", [])])
  }

  ghost predicate GathersFirst(req: Request) {
    Gathers(FirstWorld(req), req, NoFaults())
  }

  ghost function FirstArtifacts(req: Request): seq<LedgerArtifact> {
    LedgerArtifacts(Gathered(FirstWorld(req), req))
  }

  ghost function FirstArchive(req: Request): map<string, Archive> {
    map[req.Name() := Archive(req.id, true, FirstArtifacts(req))]
  }

  lemma PublishedArchives(w: World, req: Request, artifacts: seq<LedgerArtifact>, f: RunFaults, fits: seq<Job> -> bool)
    requires w.archives == map[] && w.published == {}
    ensures var v := Publish(w, req, artifacts, f, fits).world;
            || (v.archives == map[] && v.published == {})
            || (v.archives == map[req.Name() := Archive(req.id, true, artifacts)] && v.published == {req.id})
  {
  }

  lemma GatheredArchives(req: Request, f: RunFaults, fits: seq<Job> -> bool)
    ensures var v := Gather(FirstWorld(req), req, f, fits).world;
            || (v.archives == map[] && v.published == {})
            || (GathersFirst(req) && v.archives == FirstArchive(req) && v.published == {req.id})
  {
    if Gathers(FirstWorld(req), req, f) {
      GatheredIsPublished(FirstWorld(req), req, f, fits);
      PublishedArchives(FirstWorld(req), req, FirstArtifacts(req), f, fits);
    } else {
      NothingIsPublished(FirstWorld(req), req, f, fits);
    }
  }

  lemma FirstStartArchives(req: Request, f: RunFaults, fits: seq<Job> -> bool)
    ensures var v := Start(EMPTY, req, f, fits).world;
            || (v.archives == map[] && v.published == {})
            || (GathersFirst(req) && v.archives == FirstArchive(req) && v.published == {req.id})
  {
    var running := Entry(req, Running, req.Name(), "", []);
    RecordedFirst([], running);
    if Store(EMPTY, running, f.start, fits).progress == Going {
      GatheredArchives(req, f, fits);
    }
  }

  /** A first run publishes nothing, or what the request gathers over the empty ledger. */
  lemma FirstRunArchives(req: Request, f: RunFaults, fits: seq<Job> -> bool)
    ensures var v := Run(EMPTY, req, f, fits).world;
            || (v.archives == map[] && v.published == {})
            || (GathersFirst(req) && v.archives == FirstArchive(req) && v.published == {req.id})
  {
    assert Reconcile(EMPTY, EMPTY.jobs, 0, f.reconcile, fits) == State(EMPTY, Going);
    FirstStartArchives(req, f, fits);
  }

  function Open(req: Request): Job {
    Entry(req, Running, req.Name(), "", [])
  }

  /** The run's success. */
  ghost function Own(a: Request): Job {
    Entry(a, Success, a.Name(), "", FirstArtifacts(a))
  }

  ghost function Warned(req: Request): Job {
    Own(req).(error := WARNING)
  }

  /** The archive is published; the ledger holds what could be recorded last. */
  ghost function Left(req: Request, jobs: seq<Job>): World {
    World(jobs, FirstArchive(req), {req.id})
  }

  ghost function LeftJobs(req: Request, fits: seq<Job> -> bool): seq<Job> {
    if fits([Own(req)]) then [Own(req)] else if fits([Warned(req)]) then [Warned(req)] else [Open(req)]
  }

  /** A first run in which every call works returns, whatever the ledger could hold. */
  lemma FirstRun(req: Request, fits: seq<Job> -> bool)
    requires GathersFirst(req) && fits([Open(req)])
    ensures Run(EMPTY, req, NoFaults(), fits) == Result(Left(req, LeftJobs(req, fits)), Returned(false, !fits([Own(req)])))
  {
    FirstRunFinishes(req, fits);
    RecordedFirst([], Open(req));
    assert Reconcile(EMPTY, EMPTY.jobs, 0, NoFaults().reconcile, fits) == State(EMPTY, Going);
    assert Start(EMPTY, req, NoFaults(), fits) == Gather(FirstWorld(req), req, NoFaults(), fits);
  }

  lemma FirstRunFinishes(req: Request, fits: seq<Job> -> bool)
    requires GathersFirst(req)
    ensures Gather(FirstWorld(req), req, NoFaults(), fits)
            == Result(Left(req, LeftJobs(req, fits)), Returned(false, !fits([Own(req)])))
  {
    GatheredIsPublished(FirstWorld(req), req, NoFaults(), fits);
    PublicationFinishes(req, fits);
  }

  lemma PublicationFinishes(req: Request, fits: seq<Job> -> bool)
    ensures Publish(FirstWorld(req), req, FirstArtifacts(req), NoFaults(), fits)
            == Result(Left(req, LeftJobs(req, fits)), Returned(false, !fits([Own(req)])))
  {
    assert Rename(FirstWorld(req), req, FirstArtifacts(req), NoFaults().publish) == State(Left(req, [Open(req)]), Going);
    LastRecords(req, fits);
  }

  /** The success is recorded, or else the success with its warning, if it can be. */
  lemma LastRecords(req: Request, fits: seq<Job> -> bool)
    ensures Finish(Left(req, [Open(req)]), req, FirstArtifacts(req), NoFaults(), fits)
            == Result(Left(req, LeftJobs(req, fits)), Returned(false, !fits([Own(req)])))
  {
    RecordedFirst([Open(req)], Own(req));
    RecordedFirst([Open(req)], Warned(req));
    assert ClosingEntry(req, Some(FirstArtifacts(req)), Refused, "") == Warned(req);
  }

  /* ---------- Two runs ---------- */

  /** The process ends once its job is recorded as running. */
  ghost function EndsAtStart(): RunFaults {
    NoFaults().(start := Crash(true))
  }

  ghost function Pair(a: Request, f: RunFaults, b: Request, g: RunFaults): seq<Attempt> {
    [Attempt(a, f, {}), Attempt(b, g, {})]
  }

  ghost function AfterTwo(a: Request, f: RunFaults, b: Request, g: RunFaults, fits: seq<Job> -> bool): World {
    Run(Run(EMPTY, a, f, fits).world, b, g, fits).world
  }

  lemma TwoRuns(a: Request, f: RunFaults, b: Request, g: RunFaults, fits: seq<Job> -> bool)
    ensures Runs(EMPTY, Pair(a, f, b, g), fits) == AfterTwo(a, f, b, g, fits)
  {
    var pair := Pair(a, f, b, g);
    var v := Run(EMPTY, a, f, fits).world;
    assert pair[1..] == [Attempt(b, g, {})] && pair[1..][1..] == [];
    assert Damage(EMPTY, {}) == EMPTY && Damage(v, {}) == v;
    assert Runs(v, pair[1..], fits) == Run(v, b, g, fits).world;
  }

  /** A completed reconciliation after the two runs leaves the ledger wrong about the second. */
  ghost predicate WrongAt(w: World, b: Request, faults: nat -> JobFaults, fits: seq<Job> -> bool) {
    var s := Reconcile(w, w.jobs, 0, faults, fits);
    s.progress == Going && exists j :: j in s.world.jobs && j.id == b.id && !Truthful(s.world, j)
  }

  ghost predicate SecondIsWrong(a: Request, f: RunFaults, b: Request, g: RunFaults, faults: nat -> JobFaults, fits: seq<Job> -> bool) {
    WrongAt(AfterTwo(a, f, b, g, fits), b, faults, fits)
  }

  ghost predicate Honestly(f: RunFaults, g: RunFaults, faults: nat -> JobFaults) {
    Honest(f) && Honest(g) && HonestChecks(faults)
  }

  /** A success of the second run for the first run's archive. */
  ghost function Borrowed(a: Request, b: Request): Job {
    Entry(b, Success, b.Name(), "", FirstArtifacts(a))
  }

  /** The ledger has room for all that two such runs record. */
  ghost predicate HasRoom(a: Request, b: Request, fits: seq<Job> -> bool) {
    fits([Open(a)]) && fits([Own(a)]) && fits([Own(a), Open(b)]) && fits([Own(a), Borrowed(a, b)])
  }

  /** A ledger with the first run's success and the second run's open job. */
  ghost function Interrupted(a: Request, b: Request): World {
    Left(a, [Own(a), Open(b)])
  }

  lemma SecondEndsAtStart(a: Request, b: Request, fits: seq<Job> -> bool)
    requires a.id != b.id && fits([Own(a), Open(b)])
    ensures Run(Left(a, [Own(a)]), b, EndsAtStart(), fits).world == Interrupted(a, b)
  {
    var w := Left(a, [Own(a)]);
    RecordedSecond(Own(a), w.jobs, Open(b));
    assert Reconcile(w, w.jobs, 1, EndsAtStart().reconcile, fits) == State(w, Going);
    assert Reconcile(w, w.jobs, 0, EndsAtStart().reconcile, fits) == State(w, Going);
  }

  lemma SecondBorrows(a: Request, b: Request, fits: seq<Job> -> bool)
    requires a.id != b.id && a.Name() == b.Name() && PlainName(a.Name()) && fits([Own(a), Borrowed(a, b)])
    ensures WrongAt(Interrupted(a, b), b, NoFaults().reconcile, fits)
  {
    var v, faults := Interrupted(a, b), NoFaults().reconcile;
    var u := v.(jobs := [Own(a), Borrowed(a, b)]);
    RecordedSecond(Own(a), v.jobs, Borrowed(a, b));
    assert Reconcile(u, v.jobs, 2, faults, fits) == State(u, Going);
    assert ReconcileJob(v, v.jobs[1], faults(1), fits) == State(u, Going);
    assert Reconcile(v, v.jobs, 1, faults, fits) == State(u, Going);
    assert ReconcileJob(v, v.jobs[0], faults(0), fits) == State(v, Going);
    assert Reconcile(v, v.jobs, 0, faults, fits) == State(u, Going);
    assert u.jobs[1] in u.jobs;
  }

  /** Two honest runs with one archive name, and room for what they record, can leave the ledger
      wrong about the second. */
  lemma NamesakesGoWrong(a: Request, b: Request, fits: seq<Job> -> bool)
    requires ShareName(a, b) && GathersFirst(a) && PlainName(a.Name()) && HasRoom(a, b, fits)
    ensures exists f, g, faults :: Honestly(f, g, faults) && SecondIsWrong(a, f, b, g, faults, fits)
  {
    ShareNameExactly(a, b);
    var f, g, faults := NoFaults(), EndsAtStart(), NoFaults().reconcile;
    FirstRun(a, fits);
    SecondEndsAtStart(a, b, fits);
    SecondBorrows(a, b, fits);
    assert AfterTwo(a, f, b, g, fits) == Interrupted(a, b);
    assert Honestly(f, g, faults) && SecondIsWrong(a, f, b, g, faults, fits);
  }

  /* ---------- And only then ---------- */

  /** The jobs that a completed reconciliation judged have plain names. */
  lemma {:induction false} JudgedArePlain(w: World, jobs: seq<Job>, i: nat, k: nat, faults: nat -> JobFaults, fits: seq<Job> -> bool)
    requires i <= k < |jobs| && jobs[k].status == Running && Reconcile(w, jobs, i, faults, fits).progress == Going
    ensures PlainName(jobs[k].archiveName)
    decreases k - i
  {
    if i < k {
      JudgedArePlain(ReconcileJob(w, jobs[i], faults(i), fits).world, jobs, i + 1, k, faults, fits);
    }
  }

  /** What is known after the two runs. */
  ghost function PairPast(a: Request, b: Request, honest: bool, fits: seq<Job> -> bool): Past {
    FirstPast(honest, fits).Asking(a).Asking(b)
  }

  lemma AfterTwoIsSound(a: Request, f: RunFaults, b: Request, g: RunFaults, faults: nat -> JobFaults, honest: bool, fits: seq<Job> -> bool)
    requires a.id != b.id && (honest ==> Honestly(f, g, faults))
    ensures var w := AfterTwo(a, f, b, g, fits);
            && Sound(w, PairPast(a, b, honest, fits))
            && Sound(Reconcile(w, w.jobs, 0, faults, fits).world, PairPast(a, b, honest, fits))
    ensures RunFrame(Run(EMPTY, a, f, fits).world, AfterTwo(a, f, b, g, fits), b)
  {
    var p := FirstPast(honest, fits);
    EmptyIsSound(p);
    RunKeepsSound(EMPTY, a, f, p);
    var v := Run(EMPTY, a, f, fits).world;
    RunKeepsSound(v, b, g, p.Asking(a));
    var w := AfterTwo(a, f, b, g, fits);
    ReconcileKeepsSound(w, w.jobs, 0, faults, PairPast(a, b, honest, fits));
    EmptyIsSound(FirstPast(false, fits));
    RunKeepsSound(EMPTY, a, f, FirstPast(false, fits));
    RunningFrames(v, b, g, FirstPast(false, fits).Asking(a));
  }

  /** The wrong entry is a success for the first run's archive, under the one name. */
  lemma WrongEntryIsBorrowed(a: Request, f: RunFaults, b: Request, g: RunFaults, faults: nat -> JobFaults, fits: seq<Job> -> bool, j: Job)
    requires a.id != b.id && Honestly(f, g, faults)
    requires var w := AfterTwo(a, f, b, g, fits);
             var s := Reconcile(w, w.jobs, 0, faults, fits);
             s.progress == Going && j in s.world.jobs && j.id == b.id && !Truthful(s.world, j)
    ensures a.Name() == b.Name() && GathersFirst(a) && PlainName(a.Name())
    ensures j == Borrowed(a, b).(error := j.error)
    ensures var w := AfterTwo(a, f, b, g, fits); w.archives == FirstArchive(a) && a.id in w.published
  {
    var w := AfterTwo(a, f, b, g, fits);
    var v := Reconcile(w, w.jobs, 0, faults, fits).world;
    var p := PairPast(a, b, true, fits);
    AfterTwoIsSound(a, f, b, g, faults, true, fits);
    ReconcileOnlyJudges(w, w.jobs, 0, faults, fits);
    assert JobSound(v, j, p) && p.requests[b.id] == b;
    assert j.status == Success && j.id !in v.published && Borrows(v, j);
    BorrowedFromFirst(a, f, b, g, fits, j.archiveName);
    WasOpen(w, b, faults, fits, j, p);
  }

  /** An archive under the second run's name that is not its own is the first run's. */
  lemma BorrowedFromFirst(a: Request, f: RunFaults, b: Request, g: RunFaults, fits: seq<Job> -> bool, name: string)
    requires a.id != b.id && Sound(AfterTwo(a, f, b, g, fits), PairPast(a, b, true, fits))
    requires RunFrame(Run(EMPTY, a, f, fits).world, AfterTwo(a, f, b, g, fits), b)
    requires var w := AfterTwo(a, f, b, g, fits);
             b.id !in w.published && name in w.archives && w.archives[name].owner != b.id && name == b.Name()
    ensures a.Name() == b.Name() && GathersFirst(a)
    ensures var w := AfterTwo(a, f, b, g, fits); w.archives == FirstArchive(a) && a.id in w.published
  {
    FirstRunArchives(a, f, fits);
    OnlyFirstPublished(a, b, Run(EMPTY, a, f, fits).world, AfterTwo(a, f, b, g, fits), fits, name);
  }

  lemma OnlyFirstPublished(a: Request, b: Request, v: World, w: World, fits: seq<Job> -> bool, name: string)
    requires a.id != b.id && Sound(w, PairPast(a, b, true, fits)) && RunFrame(v, w, b) && b.id !in w.published && name in w.archives
    requires (v.archives == map[] && v.published == {}) || (v.archives == FirstArchive(a) && v.published == {a.id})
    ensures v.published == {a.id} && name == a.Name() && w.archives == FirstArchive(a) && a.id in w.published
  {
    var p := PairPast(a, b, true, fits);
    forall n | n in w.archives ensures w.archives[n].owner == a.id && n == a.Name() && a.id in v.published {
      assert ArchiveSound(w, n, w.archives[n], p);
    }
    assert w.archives.Keys == {a.Name()};
  }

  /** An unpublished success was an open job before the reconciliation. */
  lemma WasOpen(w: World, b: Request, faults: nat -> JobFaults, fits: seq<Job> -> bool, j: Job, p: Past)
    requires Sound(w, p) && p.Knows(b) && Reconcile(w, w.jobs, 0, faults, fits).progress == Going
    requires j in Reconcile(w, w.jobs, 0, faults, fits).world.jobs && j.id == b.id && j.status == Success && b.id !in w.published
    requires forall k | k in w.jobs && k.id == b.id && k.status == Success :: b.id in w.published
    ensures PlainName(b.Name())
  {
    VerdictsFrom(w, w.jobs, 0, faults, fits, j);
    var k: nat :| Closes(w, w.jobs, k, faults, j);
    JudgedArePlain(w, w.jobs, 0, k, faults, fits);
    assert JobSound(w, w.jobs[k], p);
  }

  /** Without its error an entry is normal and takes no more room. */
  lemma WithoutErrorIsSmaller(j: Job)
    ensures JobSize(j.(error := "")) <= JobSize(j) && (NormalJob(j) ==> NormalJob(j.(error := "")))
  {
  }

  lemma TwoEntriesFit(jobs: seq<Job>, x: Job, y: Job)
    requires x in jobs && y in jobs && x.id != y.id
    ensures LedgerSize(jobs) >= LedgerSize([x, y])
  {
    var i :| 0 <= i < |jobs| && jobs[i] == x;
    var k :| 0 <= k < |jobs| && jobs[k] == y;
    if i < k {
      TwoItemsTakeRoom(jobs, i, k, JobSize);
    } else {
      TwoItemsTakeRoom(jobs, k, i, JobSize);
    }
    LedgerOfTwo(x, y);
  }

  /** An accepted ledger with both successes has room for them alone. */
  lemma AcceptedPair(jobs: seq<Job>, x: Job, y: Job)
    requires LedgerAccepts(jobs) && x in jobs && y in jobs && x.id != y.id
    ensures LedgerAccepts([x.(error := ""), y.(error := "")])
  {
    TwoEntriesFit(jobs, x, y);
    LedgerOfTwo(x, y);
    WithoutErrorIsSmaller(x);
    WithoutErrorIsSmaller(y);
    AcceptsTwo(x.(error := ""), y.(error := ""));
  }

  /** The ledger as it is limited has room for the whole of two runs if it has for both successes. */
  lemma RoomForBothIsEnough(a: Request, b: Request)
    requires a.id != b.id && LedgerAccepts([Own(a), Borrowed(a, b)])
    ensures HasRoom(a, b, LedgerAccepts)
  {
    OpenEntriesFit(Own(a), Borrowed(a, b), Open(a), Open(b));
  }

  lemma OpenEntriesFit(x: Job, y: Job, openX: Job, openY: Job)
    requires LedgerAccepts([x, y]) && x.status == Success && y.status == Success
    requires openX == x.(status := Running, artifacts := []) && openY == y.(status := Running, artifacts := [])
    ensures LedgerAccepts([openX]) && LedgerAccepts([x]) && LedgerAccepts([x, openY])
  {
    AcceptsTwo(x, y);
    OpenIsSmaller(x, openX);
    OpenIsSmaller(y, openY);
    AcceptsOne(openX);
    AcceptsOne(x);
    AcceptsTwo(x, openY);
  }

  lemma OpenIsSmaller(success: Job, open: Job)
    requires success.status == Success && open == success.(status := Running, artifacts := [])
    ensures JobSize(open) <= JobSize(success) && (NormalJob(success) ==> NormalJob(open))
  {
  }

  /** Two runs without any lying error can leave the ledger wrong about the second exactly when
      both ask for one plain archive name, the first has something to publish, and the ledger has
      room for both successes. */
  lemma WrongExactlyWhenNamesAreShared(a: Request, b: Request)
    requires a.id != b.id
    ensures (exists f, g, faults :: Honestly(f, g, faults) && SecondIsWrong(a, f, b, g, faults, LedgerAccepts))
            <==> ShareName(a, b) && PlainName(a.Name()) && GathersFirst(a) && LedgerAccepts([Own(a), Borrowed(a, b)])
  {
    if f, g, faults :| Honestly(f, g, faults) && SecondIsWrong(a, f, b, g, faults, LedgerAccepts) {
      WrongOnlyIfShared(a, f, b, g, faults);
    }
    if ShareName(a, b) && PlainName(a.Name()) && GathersFirst(a) && LedgerAccepts([Own(a), Borrowed(a, b)]) {
      RoomForBothIsEnough(a, b);
      NamesakesGoWrong(a, b, LedgerAccepts);
    }
  }

  lemma WrongOnlyIfShared(a: Request, f: RunFaults, b: Request, g: RunFaults, faults: nat -> JobFaults)
    requires a.id != b.id && Honestly(f, g, faults) && SecondIsWrong(a, f, b, g, faults, LedgerAccepts)
    ensures ShareName(a, b) && PlainName(a.Name()) && GathersFirst(a) && LedgerAccepts([Own(a), Borrowed(a, b)])
  {
    var w := AfterTwo(a, f, b, g, LedgerAccepts);
    var v := Reconcile(w, w.jobs, 0, faults, LedgerAccepts).world;
    var j :| j in v.jobs && j.id == b.id && !Truthful(v, j);
    WrongEntryIsBorrowed(a, f, b, g, faults, LedgerAccepts, j);
    ShareNameExactly(a, b);
    var i := FirstIsRemembered(a, f, b, g, faults, LedgerAccepts);
    AfterTwoIsSound(a, f, b, g, faults, true, LedgerAccepts);
    AcceptedPair(v.jobs, i, j);
  }

  /** The first run's success is still in the ledger. */
  lemma FirstIsRemembered(a: Request, f: RunFaults, b: Request, g: RunFaults, faults: nat -> JobFaults, fits: seq<Job> -> bool)
    returns (i: Job)
    requires a.id != b.id && Honestly(f, g, faults)
    requires var w := AfterTwo(a, f, b, g, fits);
             && Reconcile(w, w.jobs, 0, faults, fits).progress == Going
             && w.archives == FirstArchive(a) && a.id in w.published
    ensures var w := AfterTwo(a, f, b, g, fits);
            i in Reconcile(w, w.jobs, 0, faults, fits).world.jobs && i == Own(a).(error := i.error)
  {
    var w := AfterTwo(a, f, b, g, fits);
    var v := Reconcile(w, w.jobs, 0, faults, fits).world;
    var p := PairPast(a, b, true, fits);
    AfterTwoIsSound(a, f, b, g, faults, true, fits);
    ReconcileOnlyJudges(w, w.jobs, 0, faults, fits);
    ReconciledHasNoRunning(w, faults, p);
    assert p.requests == map[a.id := a, b.id := b];
    assert IsKnown(v, a.id, p);
    i :| i in v.jobs && i.id == a.id;
    assert JobSound(v, i, p);
  }

  /** Any two ids that begin alike, with real limits on manifest and ledger. */
  lemma SharedNameExample(s: string, t: string, created: string)
    requires s != t && SmallSample(HEAD + s, created, 1) && Stamped(HEAD + t, created)
    ensures exists f, g, faults :: Honestly(f, g, faults)
              && SecondIsWrong(Sample(HEAD + s, created, 1), f, Sample(HEAD + t, created, 1), g, faults, LedgerAccepts)
  {
    var a, b := Sample(HEAD + s, created, 1), Sample(HEAD + t, created, 1);
    HeadsMeet(s, t, created, false);
    ShareNameExactly(a, b);
    SampleGathers(HEAD + s, created, 1, FirstWorld(a), NoFaults());
    SamplesHaveRoom(HEAD + s, HEAD + t, created);
    WrongExactlyWhenNamesAreShared(a, b);
  }

  lemma SamplesHaveRoom(s: string, t: string, created: string)
    requires SmallSample(s, created, 1) && Stamped(t, created)
    ensures LedgerAccepts([Own(Sample(s, created, 1)), Borrowed(Sample(s, created, 1), Sample(t, created, 1))])
  {
    var a, b := Sample(s, created, 1), Sample(t, created, 1);
    SampleGathers(s, created, 1, FirstWorld(a), NoFaults());
    SmallSuccess(s, created, 1, FirstArtifacts(a));
    SmallSuccess(t, created, 1, FirstArtifacts(a));
    AcceptsTwo(Own(a), Borrowed(a, b));
  }

  lemma {:induction false} SmallSuccess(id: string, created: string, n: nat, artifacts: seq<LedgerArtifact>)
    requires Stamped(id, created) && 0 < n <= 10 && artifacts == LedgerArtifacts(Transcripts(n))
    ensures var j := SampleEntry(id, created, n, Success, "", artifacts); NormalJob(j) && JobSize(j) <= 3000
  {
    LedgerTranscriptsAreNormal(n);
    SampleEntryIsNormal(id, created, n, Success, "", artifacts);
    SuccessSize(id, created, n, artifacts);
    SampleName(id, created, n);
  }
}
