/** How many bytes manifests and ledgers take as compact JSON. */
module RenderedSizes {
  import opened Numerals
  import opened BackupState
  import opened BackupCollector
  import opened BackupManifest

  const MAX_BACKUP_STATE_BYTES := 512_000
  const MAX_BACKUP_STATE_ARTIFACTS_PER_JOB := 10_000

  /** A character in a JSON text: in ASCII alone, with escapes, or in UTF-8. */
  function CharSize(c: char, ascii: bool): nat {
    var code := c as int;
    if c == '"' || c == '\\' then 2
    else if code < 0x20 then (if c in {'\n', '\r', '\t', '\U{8}', '\U{C}'} then 2 else 6)
    else if code < 0x7F then 1
    else if ascii then (if code < 0x1_0000 then 6 else 12)
    else if code < 0x80 then 1
    else if code < 0x800 then 2
    else if code < 0x1_0000 then 3
    else 4
  }

  function CharsSize(s: string, ascii: bool): nat {
    if s == "" then 0 else CharSize(s[0], ascii) + CharsSize(s[1..], ascii)
  }

  function TextSize(s: string, ascii: bool): nat {
    CharsSize(s, ascii) + 2
  }

  function NumberSize(n: nat): nat {
    |Decimal(n)|
  }

  function FlagSize(b: bool): nat {
    if b then 4 else 5
  }

  /** A member of an object: a key of so many letters, its quotes, its colon, and the value. */
  function Field(key: nat, size: nat): nat {
    key + 3 + size
  }

  /** The items of a list, each with the comma or the bracket after it. */
  function ItemsSize<T>(items: seq<T>, size: T -> nat): nat {
    if items == [] then 0 else size(items[0]) + 1 + ItemsSize(items[1..], size)
  }

  function ListSize<T>(items: seq<T>, size: T -> nat): nat {
    if items == [] then 2 else ItemsSize(items, size) + 1
  }

  lemma {:induction false} ItemsAppended<T>(items: seq<T>, last: T, size: T -> nat)
    ensures ItemsSize(items + [last], size) == ItemsSize(items, size) + size(last) + 1
  {
    if items == [] {
      assert [] + [last] == [last] && [last][1..] == [];
    } else {
      var all := items + [last];
      assert all[0] == items[0] && all[1..] == items[1..] + [last];
      ItemsAppended(items[1..], last, size);
    }
  }

  lemma {:induction false} OneItemTakesRoom<T>(items: seq<T>, k: nat, size: T -> nat)
    requires k < |items|
    ensures ItemsSize(items, size) >= size(items[k]) + 1
  {
    if k > 0 {
      OneItemTakesRoom(items[1..], k - 1, size);
    }
  }

  /** Two items take their room, whatever else is there. */
  lemma {:induction false} TwoItemsTakeRoom<T>(items: seq<T>, i: nat, k: nat, size: T -> nat)
    requires i < k < |items|
    ensures ItemsSize(items, size) >= size(items[i]) + size(items[k]) + 2
  {
    if i == 0 {
      OneItemTakesRoom(items[1..], k - 1, size);
    } else {
      TwoItemsTakeRoom(items[1..], i - 1, k - 1, size);
    }
  }

  /* ---------- Manifests ---------- */

  function ArtifactSize(a: Artifact): nat {
    Field(12, TextSize(a.archivePath, false))          // archive_path
    + Field(4, KindSize(a.kind))                       // kind
    + Field(8, NumberSize(a.mtimeNs))                  // mtime_ns
    + Field(6, TextSize(a.sha256, false))              // sha256
    + Field(4, NumberSize(a.size))                     // size
    + Field(15, TextSize(a.sourceIdentity, false))     // source_identity
    + 5 + 2
  }

  function KindSize(kind: Kind): nat {
    match kind case Config => 8 case Transcript => 12 case Audio => 7
  }

  lemma KindSizeIsQuoted(kind: Kind)
    ensures KindSize(kind) == TextSize(KindName(kind), true) == TextSize(KindName(kind), false)
  {
    PlainTextSize(KindName(kind), true);
    PlainTextSize(KindName(kind), false);
  }

  function Utf8Size(s: string): nat {
    TextSize(s, false)
  }

  function EncryptionSize(m: Manifest): nat {
    Field(7, FlagSize(m.enabled))                      // enabled
    + Field(16, NumberSize(m.envelopeVersion))         // envelope_version
    + Field(4, TextSize(m.mode, false))                // mode
    + 2 + 2
  }

  function SelectionSize(selection: set<Kind>): nat {
    Field(5, FlagSize(Audio in selection))             // audio
    + Field(6, FlagSize(Config in selection))          // config
    + Field(11, FlagSize(Transcript in selection))     // transcripts
    + 2 + 2
  }

  /** `serialize_manifest`, with its line end. */
  function ManifestSize(m: Manifest): nat {
    Field(11, TextSize(m.appVersion, false))           // app_version
    + Field(9, ListSize(m.artifacts, ArtifactSize))    // artifacts
    + Field(14, TextSize(m.created, false))            // created_at_utc
    + Field(10, EncryptionSize(m))                     // encryption
    + Field(6, TextSize(m.jobId, false))               // job_id
    + Field(14, NumberSize(SCHEMA_VERSION))            // schema_version
    + Field(9, SelectionSize(m.selection))             // selection
    + Field(8, ListSize(m.warnings, Utf8Size))         // warnings
    + 7 + 2 + 1
  }

  /* ---------- Ledgers ---------- */

  function StatusName(status: Status): string {
    match status case Running => "running" case Success => "success" case Failed => "failed" case Skipped => "skipped"
  }

  function StatusSize(status: Status): nat {
    if status == Failed then 8 else 9
  }

  lemma StatusSizeIsQuoted(status: Status)
    ensures StatusSize(status) == TextSize(StatusName(status), true)
  {
    PlainTextSize(StatusName(status), true);
  }

  function LedgerArtifactSize(a: LedgerArtifact): nat {
    Field(4, KindSize(a.kind))                         // kind
    + Field(8, NumberSize(a.mtimeNs))                  // mtime_ns
    + Field(6, TextSize(a.sha256, true))               // sha256
    + Field(4, NumberSize(a.size))                     // size
    + Field(15, TextSize(a.sourceIdentity, true))      // source_identity
    + 4 + 2
  }

  /** One entry; it was updated when its run was created. */
  function JobSize(j: Job): nat {
    Field(12, TextSize(j.archiveName, true))           // archive_name
    + Field(9, ListSize(j.artifacts, LedgerArtifactSize))   // artifacts
    + Field(14, TextSize(j.created, true))             // created_at_utc
    + Field(5, TextSize(j.error, true))                // error
    + Field(6, TextSize(j.id, true))                   // job_id
    + Field(6, StatusSize(j.status))                   // status
    + Field(14, TextSize(j.created, true))             // updated_at_utc
    + 6 + 2
  }

  /** `_write_unlocked`, with its line end. */
  function LedgerSize(jobs: seq<Job>): nat {
    Field(4, ListSize(jobs, JobSize))                  // jobs
    + Field(14, NumberSize(SCHEMA_VERSION))            // schema_version
    + 1 + 2 + 1
  }

  predicate LedgerToken(s: string) {
    SafeText(s, 256) && forall i | 0 <= i < |s| :: IsAlphanumeric(s[i]) || s[i] == '.' || s[i] == '_' || s[i] == '-'
  }

  predicate NormalArtifact(a: LedgerArtifact) {
    LedgerToken(a.sourceIdentity) && IsSha256(a.sha256)
  }

  /** `_normalize_job`. */
  predicate NormalJob(j: Job) {
    && (j.archiveName == "" || SafeText(j.archiveName, 512)) && SafeText(j.created, 64) && (j.error == "" || SafeText(j.error, 512))
    && LedgerToken(j.id) && |j.artifacts| <= MAX_BACKUP_STATE_ARTIFACTS_PER_JOB
    && forall i | 0 <= i < |j.artifacts| :: NormalArtifact(j.artifacts[i])
  }

  /** What `_write_unlocked` accepts. */
  predicate LedgerAccepts(jobs: seq<Job>) {
    |jobs| <= MAX_BACKUP_STATE_JOBS && (forall i | 0 <= i < |jobs| :: NormalJob(jobs[i])) && LedgerSize(jobs) <= MAX_BACKUP_STATE_BYTES
  }

  /* ---------- Texts without escapes ---------- */

  predicate PrintableAscii(s: string) {
    forall i | 0 <= i < |s| :: ' ' <= s[i] <= '~' && s[i] != '"' && s[i] != '\\'
  }

  lemma {:induction false} PlainTextSize(s: string, ascii: bool)
    requires PrintableAscii(s)
    ensures TextSize(s, ascii) == |s| + 2
  {
    if s != "" {
      PlainTextSize(s[1..], ascii);
    }
  }

  lemma {:induction false} LeastTextSize(s: string, ascii: bool)
    ensures TextSize(s, ascii) >= |s| + 2
  {
    if s != "" {
      LeastTextSize(s[1..], ascii);
    }
  }
}
