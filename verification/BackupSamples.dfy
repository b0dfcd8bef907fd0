/** Requests for any number of transcripts, and how much room they take. */
module BackupSamples {
  import opened Numerals
  import opened SafePaths
  import opened BackupState
  import opened BackupNames
  import opened BackupCollector
  import opened BackupManifest
  import opened RenderedSizes
  import opened BackupJob

  const DIGEST_CHARS := 64
  const SAMPLE_SIZE := 1000

  function PathAt(i: nat): string {
    "transcripts" + "/" + Decimal(i)
  }

  /** A digest for each number of at most four digits. */
  function DigestAt(i: nat): string {
    Decimal(i) + seq(if |Decimal(i)| <= DIGEST_CHARS then DIGEST_CHARS - |Decimal(i)| else 0, _ => 'a')
  }

  function TranscriptAt(i: nat): Artifact {
    Artifact(Transcript, PathAt(i), "s", SAMPLE_SIZE, DigestAt(i), 0)
  }

  function Transcripts(n: nat): seq<Artifact> {
    seq(n, i requires 0 <= i < n => TranscriptAt(i))
  }

  /** A request for `n` transcripts, without encryption. */
  function Sample(id: string, created: string, n: nat): Request {
    Request(id, created, "1", "off", Transcripts(n), {Transcript})
  }

  /** Texts that need no escape and make plain names. */
  predicate Stamped(id: string, created: string) {
    SafeToken(id) && PrintableAscii(created) && 0 < |created| <= 64 && '/' !in created
  }

  /* ---------- The manifest is valid ---------- */

  lemma FourDigits(i: nat)
    requires i < MAX_MANIFEST_ARTIFACTS
    ensures |Decimal(i)| <= 4
  {
    DecimalLength(i / 10);
    assert i >= 10 ==> Decimal(i) == Decimal(i / 10) + [Digit(i % 10)];
  }

  lemma PathsAreApart(i: nat, j: nat)
    requires i != j
    ensures !Clash(PathAt(i), PathAt(j))
  {
    DecimalsDiffer(i, j);
    DecimalIsPlain(i);
    DecimalIsPlain(j);
    LeavesAreApart("transcripts", Decimal(i), Decimal(j));
  }

  lemma {:induction false} DecimalHasDigits(n: nat)
    ensures forall k | 0 <= k < |Decimal(n)| :: '0' <= Decimal(n)[k] <= '9'
  {
    if n >= 10 {
      DecimalHasDigits(n / 10);
    }
  }

  lemma DigestIsSha256(i: nat)
    requires i < MAX_MANIFEST_ARTIFACTS
    ensures IsSha256(DigestAt(i))
  {
    FourDigits(i);
    DecimalHasDigits(i);
  }

  /** The digits end where the filling begins. */
  predicate FilledFrom(s: string, k: nat) {
    k < |s| && s[k] == 'a' && forall m | 0 <= m < k :: s[m] != 'a'
  }

  lemma DigestsDiffer(i: nat, j: nat)
    requires i < MAX_MANIFEST_ARTIFACTS && j < MAX_MANIFEST_ARTIFACTS && i != j
    ensures DigestAt(i) != DigestAt(j)
  {
    FourDigits(i);
    FourDigits(j);
    DecimalHasDigits(i);
    DecimalHasDigits(j);
    DecimalsDiffer(i, j);
    assert FilledFrom(DigestAt(i), |Decimal(i)|) && FilledFrom(DigestAt(j), |Decimal(j)|);
    assert DigestAt(i)[..|Decimal(i)|] == Decimal(i) && DigestAt(j)[..|Decimal(j)|] == Decimal(j);
  }

  lemma TranscriptIsValid(i: nat)
    requires i < MAX_MANIFEST_ARTIFACTS
    ensures ValidArtifact(TranscriptAt(i))
  {
    DigestIsSha256(i);
    FourDigits(i);
    DecimalIsPlain(i);
    PlainIsSimple(Decimal(i));
    SimpleIsSafe("transcripts", Decimal(i));
    assert PathAt(i) == Prefix(Transcript) + Decimal(i);
  }

  /* ---------- What a first run collects ---------- */

  /** No job of the ledger archived a configuration: transcripts are always collected. */
  lemma {:induction false} TranscriptsAreCollected(n: nat, jobs: seq<Job>, k: nat)
    requires k <= n <= MAX_MANIFEST_ARTIFACTS
    ensures Collected(Transcripts(n), {Transcript}, jobs, k) == Transcripts(n)[..k]
  {
    if k > 0 {
      TranscriptsAreCollected(n, jobs, k - 1);
      forall j | 0 <= j < k - 1 ensures Print(Transcripts(n)[j]) != Print(Transcripts(n)[k - 1]) {
        DigestsDiffer(j, k - 1);
      }
      assert !Seen(Transcripts(n), {Transcript}, k - 1, Print(Transcripts(n)[k - 1]));
    }
  }

  lemma TranscriptsDoNotCollide(n: nat)
    ensures forall i, j :: !Collides(Transcripts(n), {Transcript}, i, j)
  {
    forall i, j ensures !Collides(Transcripts(n), {Transcript}, i, j) {
      if 0 <= i < j < n {
        PathsAreApart(i, j);
      }
    }
  }

  lemma SampleManifestIsValid(id: string, created: string, n: nat)
    requires Stamped(id, created) && 0 < n <= MAX_MANIFEST_ARTIFACTS
    ensures Valid(ManifestOf(Sample(id, created, n), Transcripts(n))) && PathsApart(Transcripts(n))
  {
    PrintableIsSafe(created, 64);
    var artifacts := Transcripts(n);
    forall i | 0 <= i < n ensures ValidArtifact(artifacts[i]) {
      TranscriptIsValid(i);
    }
    forall i, j | 0 <= i < j < n ensures !Clash(artifacts[i].archivePath, artifacts[j].archivePath) {
      PathsAreApart(i, j);
    }
    assert artifacts[0].kind in EffectiveSelection({Transcript}, artifacts);
  }

  /* ---------- Sizes ---------- */

  lemma PlainIsPrintable(s: string)
    requires Plain(s)
    ensures PrintableAscii(s)
  {
  }

  lemma TranscriptSizes(i: nat)
    requires i < MAX_MANIFEST_ARTIFACTS
    ensures 175 <= ArtifactSize(TranscriptAt(i)) <= 178
  {
    FourDigits(i);
    DecimalIsPlain(i);
    DigestIsSha256(i);
    PlainTextSize(PathAt(i), false);
    PlainTextSize(DigestAt(i), false);
    PlainTextSize("s", false);
    assert Decimal(SAMPLE_SIZE) == "1000";
  }

  lemma {:induction false} TranscriptsSize(n: nat, k: nat)
    requires k <= n <= MAX_MANIFEST_ARTIFACTS
    ensures 176 * (n - k) <= ItemsSize(Transcripts(n)[k..], ArtifactSize) <= 179 * (n - k)
    decreases n - k
  {
    if k < n {
      TranscriptsSize(n, k + 1);
      TranscriptSizes(k);
      assert Transcripts(n)[k..][1..] == Transcripts(n)[k + 1..] && Transcripts(n)[k..][0] == TranscriptAt(k);
    }
  }

  lemma AllTranscriptsSize(n: nat)
    requires 0 < n <= MAX_MANIFEST_ARTIFACTS
    ensures 176 * n <= ItemsSize(Transcripts(n), ArtifactSize) <= 179 * n && Transcripts(n) != []
  {
    TranscriptsSize(n, 0);
    assert Transcripts(n)[0..] == Transcripts(n);
  }

  /** A manifest of plain texts, without encryption and warnings, for transcripts alone. */
  lemma PlainManifestSize(m: Manifest)
    requires PrintableAscii(m.jobId) && PrintableAscii(m.created) && PrintableAscii(m.appVersion)
    requires EncryptionSize(m) == 51 && SelectionSize(m.selection) == 49 && m.warnings == [] && m.artifacts != []
    ensures ManifestSize(m) == 222 + |m.jobId| + |m.created| + |m.appVersion| + 3 + ItemsSize(m.artifacts, ArtifactSize)
  {
    PlainTextSize(m.jobId, false);
    PlainTextSize(m.created, false);
    PlainTextSize(m.appVersion, false);
  }

  lemma OffSize(m: Manifest)
    requires m.mode == "off" && !m.enabled && m.envelopeVersion == 0
    ensures EncryptionSize(m) == 51
  {
    PlainTextSize("off", false);
  }

  lemma TranscriptsOnlySize()
    ensures SelectionSize({Transcript}) == 49
  {
  }

  lemma SampleSelection(n: nat)
    requires n > 0
    ensures EffectiveSelection({Transcript}, Transcripts(n)) == {Transcript}
  {
    assert Transcripts(n)[0].kind == Transcript;
  }

  lemma SampleManifestIsPlain(id: string, created: string, n: nat)
    requires Stamped(id, created) && n > 0
    ensures var m := ManifestOf(Sample(id, created, n), Transcripts(n));
            && PrintableAscii(m.jobId) && PrintableAscii(m.created) && PrintableAscii(m.appVersion) && |m.appVersion| == 1
            && EncryptionSize(m) == 51 && SelectionSize(m.selection) == 49
  {
    SampleSelection(n);
    TokenIsPrintable(id);
    OffSize(ManifestOf(Sample(id, created, n), Transcripts(n)));
    TranscriptsOnlySize();
  }

  /** The manifest of a sample is small enough up to five thousand transcripts and more. */
  lemma SampleManifestSize(id: string, created: string, n: nat)
    requires Stamped(id, created) && 0 < n <= MAX_MANIFEST_ARTIFACTS
    ensures var m := ManifestOf(Sample(id, created, n), Transcripts(n));
            226 + |id| + |created| + 176 * n <= ManifestSize(m) <= 226 + |id| + |created| + 179 * n
  {
    SampleManifestIsPlain(id, created, n);
    AllTranscriptsSize(n);
    PlainManifestSize(ManifestOf(Sample(id, created, n), Transcripts(n)));
  }

  /** An entry of plain texts. */
  lemma PlainJobSize(j: Job)
    requires PrintableAscii(j.archiveName) && PrintableAscii(j.created) && PrintableAscii(j.error) && PrintableAscii(j.id)
    ensures JobSize(j) == 107 + |j.archiveName| + |j.error| + |j.id| + 2 * |j.created| + StatusSize(j.status) - 2
                          + ListSize(j.artifacts, LedgerArtifactSize)
  {
    PlainTextSize(j.archiveName, true);
    PlainTextSize(j.created, true);
    PlainTextSize(j.error, true);
    PlainTextSize(j.id, true);
  }

  const LEDGER_ENTRY := 145

  lemma LedgerTranscriptSize(i: nat, a: LedgerArtifact)
    requires i < MAX_MANIFEST_ARTIFACTS && a == LedgerArtifact(Transcript, "s", SAMPLE_SIZE, DigestAt(i), 0)
    ensures LedgerArtifactSize(a) + 1 == LEDGER_ENTRY && NormalArtifact(a)
  {
    FourDigits(i);
    DecimalIsPlain(i);
    DigestIsSha256(i);
    PlainTextSize(DigestAt(i), true);
    PlainTextSize("s", true);
    assert Decimal(SAMPLE_SIZE) == "1000";
  }

  lemma {:induction false} LedgerTranscriptsSize(n: nat, k: nat)
    requires k <= n <= MAX_MANIFEST_ARTIFACTS
    ensures ItemsSize(LedgerArtifacts(Transcripts(n))[k..], LedgerArtifactSize) == LEDGER_ENTRY * (n - k)
    decreases n - k
  {
    var artifacts := LedgerArtifacts(Transcripts(n));
    if k < n {
      LedgerTranscriptsSize(n, k + 1);
      LedgerTranscriptSize(k, artifacts[k]);
      assert artifacts[k..][1..] == artifacts[k + 1..] && artifacts[k..][0] == artifacts[k];
    }
  }

  lemma LedgerTranscriptsAreNormal(n: nat)
    requires n <= MAX_MANIFEST_ARTIFACTS
    ensures forall i | 0 <= i < n :: NormalArtifact(LedgerArtifacts(Transcripts(n))[i])
    ensures ItemsSize(LedgerArtifacts(Transcripts(n)), LedgerArtifactSize) == LEDGER_ENTRY * n
  {
    var artifacts := LedgerArtifacts(Transcripts(n));
    forall i | 0 <= i < n ensures NormalArtifact(artifacts[i]) {
      LedgerTranscriptSize(i, artifacts[i]);
    }
    LedgerTranscriptsSize(n, 0);
    assert artifacts[0..] == artifacts;
  }

  /* ---------- The ledger of a sample ---------- */

  lemma TokenIsPrintable(id: string)
    requires SafeToken(id)
    ensures PrintableAscii(id) && LedgerToken(id) && '/' !in id && '\\' !in id
  {
  }

  lemma {:induction false} WithoutIsPrintable(s: string, c: char)
    requires PrintableAscii(s)
    ensures PrintableAscii(Without(s, c)) && |Without(s, c)| <= |s|
  {
    if s != "" {
      WithoutIsPrintable(s[1..], c);
    }
  }

  lemma PrefixesArePrintable()
    ensures PrintableAscii(PREFIX) && PrintableAscii("-") && PrintableAscii(Suffix(false)) && |PREFIX| == 11 && |Suffix(false)| == 10
  {
  }

  /** A name of printable parts. */
  lemma NameIsPrintable(id: string, created: string)
    requires PrintableAscii(id) && PrintableAscii(created)
    ensures PrintableAscii(ArchiveName(id, created, false))
    ensures |ArchiveName(id, created, false)| == 22 + |Timestamp(created)| + |Short(id)| && |Timestamp(created)| <= |created|
  {
    PrefixesArePrintable();
    WithoutIsPrintable(created, '-');
    WithoutIsPrintable(Without(created, '-'), ':');
    var stamp := Timestamp(created);
    JoinedIsPrintable(PREFIX, stamp);
    JoinedIsPrintable(PREFIX + stamp, "-");
    JoinedIsPrintable(PREFIX + stamp + "-", Short(id));
    JoinedIsPrintable(PREFIX + stamp + "-" + Short(id), Suffix(false));
  }

  /** The name of a sample's archive: a plain one, and what it takes in the ledger. */
  lemma SampleName(id: string, created: string, n: nat)
    requires Stamped(id, created)
    ensures PlainName(Sample(id, created, n).Name()) && PrintableAscii(Sample(id, created, n).Name())
    ensures |Sample(id, created, n).Name()| == 22 + |Timestamp(created)| + |Short(id)| && |Timestamp(created)| <= |created|
  {
    TokenIsPrintable(id);
    NameIsPrintable(id, created);
    assert forall c | c in Short(id) :: c in id;
    PlainExactly(id, created, false);
  }

  lemma JoinedIsPrintable(s: string, t: string)
    requires PrintableAscii(s) && PrintableAscii(t)
    ensures PrintableAscii(s + t)
  {
  }

  lemma PrintableIsSafe(s: string, limit: nat)
    requires PrintableAscii(s) && 0 < |s| <= limit
    ensures SafeText(s, limit)
  {
  }

  function SampleEntry(id: string, created: string, n: nat, status: Status, error: string, artifacts: seq<LedgerArtifact>): Job {
    Entry(Sample(id, created, n), status, Sample(id, created, n).Name(), error, artifacts)
  }

  lemma SampleEntrySize(id: string, created: string, n: nat, status: Status, error: string, artifacts: seq<LedgerArtifact>)
    requires Stamped(id, created) && PrintableAscii(error)
    ensures JobSize(SampleEntry(id, created, n, status, error, artifacts))
            == 129 + |Short(id)| + |id| + |Timestamp(created)| + 2 * |created| + |error| + StatusSize(status) - 2
               + ListSize(artifacts, LedgerArtifactSize)
  {
    TokenIsPrintable(id);
    SampleName(id, created, n);
    PlainJobSize(SampleEntry(id, created, n, status, error, artifacts));
  }

  lemma SampleEntryIsNormal(id: string, created: string, n: nat, status: Status, error: string, artifacts: seq<LedgerArtifact>)
    requires Stamped(id, created) && PrintableAscii(error) && |error| <= 512 && |artifacts| <= MAX_BACKUP_STATE_ARTIFACTS_PER_JOB
    requires forall i | 0 <= i < |artifacts| :: NormalArtifact(artifacts[i])
    ensures NormalJob(SampleEntry(id, created, n, status, error, artifacts))
  {
    TokenIsPrintable(id);
    SampleName(id, created, n);
    PrintableIsSafe(created, 64);
    PrintableIsSafe(Sample(id, created, n).Name(), 512);
    if error != "" {
      PrintableIsSafe(error, 512);
    }
  }

  lemma LedgerOfOne(j: Job)
    ensures LedgerSize([j]) == 31 + JobSize(j)
  {
    ItemsAppended([], j, JobSize);
    assert [] + [j] == [j];
    assert Decimal(SCHEMA_VERSION) == "1";
  }

  /** One more entry takes its own size and a comma. */
  lemma LedgerAppended(jobs: seq<Job>, j: Job)
    requires jobs != []
    ensures LedgerSize(jobs + [j]) == LedgerSize(jobs) + JobSize(j) + 1
  {
    ItemsAppended(jobs, j, JobSize);
  }

  /** A success that lists some transcripts. */
  lemma {:induction false} SuccessSize(id: string, created: string, n: nat, artifacts: seq<LedgerArtifact>)
    requires Stamped(id, created) && artifacts != [] && ItemsSize(artifacts, LedgerArtifactSize) == LEDGER_ENTRY * |artifacts|
    ensures JobSize(SampleEntry(id, created, n, Success, "", artifacts))
            == 137 + |Short(id)| + |id| + |Timestamp(created)| + 2 * |created| + LEDGER_ENTRY * |artifacts|
  {
    SampleEntrySize(id, created, n, Success, "", artifacts);
  }

  /* ---------- Small ledgers ---------- */

  lemma AcceptsOne(j: Job)
    ensures LedgerAccepts([j]) <==> NormalJob(j) && 31 + JobSize(j) <= MAX_BACKUP_STATE_BYTES
  {
    LedgerOfOne(j);
    assert [j][0] == j;
  }

  lemma LedgerOfTwo(x: Job, y: Job)
    ensures LedgerSize([x, y]) == 32 + JobSize(x) + JobSize(y)
  {
    LedgerOfOne(x);
    LedgerAppended([x], y);
    assert [x] + [y] == [x, y];
  }

  lemma AcceptsTwo(x: Job, y: Job)
    ensures LedgerAccepts([x, y]) <==> NormalJob(x) && NormalJob(y) && 32 + JobSize(x) + JobSize(y) <= MAX_BACKUP_STATE_BYTES
  {
    LedgerOfTwo(x, y);
    assert [x, y][0] == x && [x, y][1] == y;
  }

  lemma RecordedFirst(jobs: seq<Job>, entry: Job)
    requires jobs == [] || (|jobs| == 1 && jobs[0].id == entry.id)
    ensures Recorded(jobs, entry) == [entry]
  {
    if jobs != [] {
      assert jobs[1..] == [];
    }
    assert WithoutJob(jobs, entry.id) == [];
  }

  lemma RecordedSecond(first: Job, jobs: seq<Job>, entry: Job)
    requires first.id != entry.id && (jobs == [first] || (|jobs| == 2 && jobs[0] == first && jobs[1].id == entry.id))
    ensures Recorded(jobs, entry) == [first, entry]
  {
    if |jobs| == 2 {
      assert jobs[1..] == [jobs[1]] && jobs[1..][1..] == [] && WithoutJob(jobs[1..], entry.id) == [];
    } else {
      assert jobs[1..] == [];
    }
    assert WithoutJob(jobs, entry.id) == [first];
  }

  /** The entry with which a sample's run begins. */
  lemma OpenEntryIsAccepted(id: string, created: string, n: nat)
    requires Stamped(id, created)
    ensures LedgerAccepts([Entry(Sample(id, created, n), Running, Sample(id, created, n).Name(), "", [])])
  {
    SampleEntrySize(id, created, n, Running, "", []);
    SampleEntryIsNormal(id, created, n, Running, "", []);
    SampleName(id, created, n);
    AcceptsOne(SampleEntry(id, created, n, Running, "", []));
  }

  /** The entry of a failure. */
  lemma FailedEntryIsAccepted(id: string, created: string, n: nat, error: string)
    requires Stamped(id, created) && PrintableAscii(error) && 0 < |error| <= 512
    ensures LedgerAccepts([Entry(Sample(id, created, n), Failed, "", error, [])])
  {
    var failed := Entry(Sample(id, created, n), Failed, "", error, []);
    PrintableIsSafe(error, 512);
    TokenIsPrintable(id);
    PrintableIsSafe(created, 64);
    PlainJobSize(failed);
    AcceptsOne(failed);
  }
}
