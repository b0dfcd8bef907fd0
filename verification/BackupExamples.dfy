/** Archives at the limits of what is built, accepted and restored. */
module BackupExamples {
  import opened Numerals
  import opened ShortReads
  import opened SafePaths
  import opened BackupState
  import opened BackupCollector
  import opened BackupManifest
  import opened RenderedSizes
  import opened BackupArchive
  import opened BackupRestore
  import Jobs = BackupJob
  import opened BackupSamples

  /** Manifests are rendered as compact JSON. */
  ghost predicate Compact(c: Codec) {
    forall m | Valid(m) :: |c.render(ToDict(m))| == ManifestSize(m)
  }

  ghost predicate Digests(c: Codec) {
    forall data :: IsSha256(c.hash(data))
  }

  /* ---------- What a run publishes ---------- */

  lemma PackedNamesAreApart(m: Manifest)
    requires Valid(m) && PathsApart(m.artifacts)
    ensures ClashFree(MemberNames(m), |MemberNames(m)|)
  {
    var names := MemberNames(m);
    forall i, j | 0 <= i < j < |names| ensures !Clash(names[i], names[j]) {
      if i == 0 {
        assert ValidArtifact(m.artifacts[j - 1]);
        assert names[j][0] == Prefix(m.artifacts[j - 1].kind)[0] && names[0][0] == 'm';
      }
    }
  }

  /** Whatever a run packs and publishes can be restored. */
  lemma PublishedIsRestorable(c: Codec, stage: map<string, Bytes>, m: Manifest)
    requires Faithful(c) && Compact(c) && Valid(m) && Jobs.Packs(m)
    requires forall a | a in m.artifacts :: a.archivePath in stage
    requires forall a | a in m.artifacts :: Staged(c, stage, a)
    ensures var members := ArchiveOf(c, stage, m); Restorable(c, members, members, m)
  {
    var members := ArchiveOf(c, stage, m);
    BuiltIsAccepted(c, stage, m);
    PackedNamesAreApart(m);
    BuiltMembers(c, stage, m);
    forall x | x in members && x.name == MANIFEST_NAME ensures |x.content| == x.size {
      assert members[0] == MemberOf(MANIFEST_NAME, c.render(ToDict(m)));
      SameName(members, x, members[0]);
    }
  }

  /* ---------- Transcripts with their bytes ---------- */

  function Blank(n: nat): Bytes {
    seq(n, _ => 0)
  }

  function BlankAt(c: Codec, i: nat): Artifact {
    Artifact(Transcript, PathAt(i), "s", i, c.hash(Blank(i)), 0)
  }

  function Blanks(c: Codec, n: nat): seq<Artifact> {
    seq(n, i requires 0 <= i < n => BlankAt(c, i))
  }

  function BlankManifest(c: Codec, n: nat): Manifest {
    Manifest("job", "2024", "1", false, "off", 0, {Transcript}, Blanks(c, n), [])
  }

  function StageOf(n: nat): map<string, Bytes> {
    if n == 0 then map[] else StageOf(n - 1)[PathAt(n - 1) := Blank(n - 1)]
  }

  lemma {:induction false} StagedAt(n: nat, i: nat)
    requires i < n
    ensures PathAt(i) in StageOf(n) && StageOf(n)[PathAt(i)] == Blank(i)
  {
    if i < n - 1 {
      StagedAt(n - 1, i);
      PathsAreApart(i, n - 1);
    }
  }

  lemma BlankIsValid(c: Codec, i: nat)
    requires Digests(c) && i < MAX_MANIFEST_ARTIFACTS
    ensures ValidArtifact(BlankAt(c, i))
  {
    FourDigits(i);
    DecimalIsPlain(i);
    PlainIsSimple(Decimal(i));
    SimpleIsSafe("transcripts", Decimal(i));
    assert PathAt(i) == Prefix(Transcript) + Decimal(i);
  }

  lemma BlanksAreStaged(c: Codec, n: nat)
    ensures forall a | a in Blanks(c, n) :: Staged(c, StageOf(n), a)
  {
    forall a | a in Blanks(c, n) ensures Staged(c, StageOf(n), a) {
      var i :| 0 <= i < n && Blanks(c, n)[i] == a;
      StagedAt(n, i);
    }
  }

  lemma BlanksAreValid(c: Codec, n: nat)
    requires Digests(c) && 0 < n <= MAX_MANIFEST_ARTIFACTS
    ensures Valid(BlankManifest(c, n)) && PathsApart(Blanks(c, n))
  {
    var artifacts := Blanks(c, n);
    forall i | 0 <= i < n ensures ValidArtifact(artifacts[i]) {
      BlankIsValid(c, i);
    }
    forall i, j | 0 <= i < j < n ensures !Clash(artifacts[i].archivePath, artifacts[j].archivePath) {
      PathsAreApart(i, j);
    }
    assert ManifestAccepts({Transcript}, artifacts);
  }

  lemma BlankSize(c: Codec, i: nat)
    requires Digests(c) && i < MAX_MANIFEST_ARTIFACTS
    ensures 172 <= ArtifactSize(BlankAt(c, i)) <= 178
  {
    FourDigits(i);
    DecimalIsPlain(i);
    PlainTextSize(PathAt(i), false);
    PlainTextSize(c.hash(Blank(i)), false);
    PlainTextSize("s", false);
  }

  lemma {:induction false} BlanksSize(c: Codec, n: nat, k: nat)
    requires Digests(c) && k <= n <= MAX_MANIFEST_ARTIFACTS
    ensures 173 * (n - k) <= ItemsSize(Blanks(c, n)[k..], ArtifactSize) <= 179 * (n - k)
    decreases n - k
  {
    if k < n {
      BlanksSize(c, n, k + 1);
      BlankSize(c, k);
      assert Blanks(c, n)[k..][1..] == Blanks(c, n)[k + 1..] && Blanks(c, n)[k..][0] == BlankAt(c, k);
    }
  }

  lemma BlankManifestSize(c: Codec, n: nat)
    requires Digests(c) && 0 < n <= MAX_MANIFEST_ARTIFACTS
    ensures 173 * n <= ManifestSize(BlankManifest(c, n)) <= 300 + 179 * n
  {
    var m := BlankManifest(c, n);
    BlanksSize(c, n, 0);
    assert Blanks(c, n)[0..] == Blanks(c, n);
    OffSize(m);
    TranscriptsOnlySize();
    PlainManifestSize(m);
  }

  /* ---------- A manifest that is too large ---------- */

  /** A valid manifest whose copies are all staged, and the archive built from it is refused. */
  lemma TooLargeExample(c: Codec, n: nat)
    requires Faithful(c) && Digests(c) && Compact(c) && MAX_MANIFEST_BYTES < 173 * n && n <= MAX_MANIFEST_ARTIFACTS
    ensures var m := BlankManifest(c, n);
            && Valid(m) && (forall a | a in m.artifacts :: Staged(c, StageOf(n), a))
            && !Accepted(c, ArchiveOf(c, StageOf(n), m), m)
  {
    BlanksAreValid(c, n);
    BlanksAreStaged(c, n);
    BlankManifestSize(c, n);
    BuiltIsAccepted(c, StageOf(n), BlankManifest(c, n));
  }

  /* ---------- A restore that raises over a complete destination ---------- */

  lemma BlankIsRestorable(c: Codec, n: nat) returns (members: seq<Member>)
    requires Faithful(c) && Digests(c) && Compact(c) && 0 < n <= 5_000
    ensures Restorable(c, members, members, BlankManifest(c, n))
  {
    BlanksAreValid(c, n);
    BlanksAreStaged(c, n);
    BlankManifestSize(c, n);
    PublishedIsRestorable(c, StageOf(n), BlankManifest(c, n));
    members := ArchiveOf(c, StageOf(n), BlankManifest(c, n));
  }

  /** The publishing rename takes effect and raises: the destination is complete all the same. */
  method RaisedButComplete(c: Codec, members: seq<Member>, m: Manifest, cuts: nat -> nat)
    returns (target: RestoreTarget, outcome: Ended)
    requires Restorable(c, members, members, m)
    ensures outcome == Raised && target.destination.Some? && IsRestored(c, target.destination.value, m)
  {
    target := new RestoreTarget();
    var f := RestoreFaults(NoFault, _ => NoFault, NoFault, Fails(true, false), NoFault);
    var manifest;
    outcome, manifest := target.RestoreBackup(c, members, members, cuts, f);
    OneManifestOnly(c, members, manifest.value, m);
  }

  lemma OneManifestOnly(c: Codec, members: seq<Member>, x: Manifest, y: Manifest)
    requires Accepted(c, members, x) && Accepted(c, members, y)
    ensures x == y
  {
    var m :| m in members && m.name == MANIFEST_NAME;
    OneManifest(c, members, m);
  }

  /* ---------- Two paths that cannot both be files ---------- */

  function Settings(c: Codec, path: string): Artifact {
    Artifact(Config, path, "s", 0, c.hash([]), 0)
  }

  const OUTER := "config" + "/" + "a"
  const INNER := "config" + "/" + ("a" + "/" + "b")

  function Nested(c: Codec): Manifest {
    Manifest("job", "2024", "1", false, "off", 0, {Config}, [Settings(c, OUTER), Settings(c, INNER)], [])
  }

  lemma NestedIsValid(c: Codec)
    requires Digests(c)
    ensures Valid(Nested(c)) && Clash(OUTER, INNER)
  {
    PlainIsSimple("a");
    PlainIsSimple("b");
    JoinedIsSimple("a", "b");
    SimpleIsSafe("config", "a");
    SimpleIsSafe("config", "a" + "/" + "b");
    assert INNER == OUTER + "/" + "b";
    assert OUTER + "/" <= INNER;
    assert |OUTER| != |INNER|;
  }

  /** An archive that is accepted, and that no restore whatever can put back. */
  lemma NestedExample(c: Codec, planned: seq<Member>, payload: seq<Member>)
    requires Faithful(c) && Digests(c) && 0 < |c.render(ToDict(Nested(c)))| <= MAX_MANIFEST_BYTES
    ensures Accepted(c, ArchiveOf(c, map[OUTER := [], INNER := []], Nested(c)), Nested(c))
    ensures !Restorable(c, planned, payload, Nested(c))
  {
    var m := Nested(c);
    NestedIsValid(c);
    BuiltIsAccepted(c, map[OUTER := [], INNER := []], m);
    assert MemberNames(m)[1] == OUTER && MemberNames(m)[2] == INNER;
  }
}
