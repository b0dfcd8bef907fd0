/** The manifest of a backup: its invariant, and its form as a JSON document.

    The documents the reader accepts are exactly the renderings of valid manifests. */
module BackupManifest {
  import opened Wrappers
  import opened BackupState
  import opened BackupCollector

  const SCHEMA_VERSION := 1
  const MAX_MANIFEST_WARNINGS := 256
  const MAX_MANIFEST_BYTES := 1_000_000

  datatype Json =
    | Null
    | Bool(flag: bool)
    | Number(value: int)
    | Text(text: string)
    | List(items: seq<Json>)
    | Object(fields: map<string, Json>)

  datatype Manifest = Manifest(jobId: string, created: string, appVersion: string, enabled: bool, mode: string,
                               envelopeVersion: nat, selection: set<Kind>, artifacts: seq<Artifact>, warnings: seq<string>)

  /* ---------- Texts and paths ---------- */

  predicate SafeText(s: string, maxChars: nat) {
    0 < |s| <= maxChars && forall i | 0 <= i < |s| :: s[i] as int >= 0x20 && s[i] as int != 0x7F
  }

  predicate IsAlphanumeric(c: char) {
    'A' <= c <= 'Z' || 'a' <= c <= 'z' || '0' <= c <= '9'
  }

  predicate SafeToken(s: string) {
    && SafeText(s, 256) && IsAlphanumeric(s[0])
    && forall i | 0 <= i < |s| :: IsAlphanumeric(s[i]) || s[i] == '.' || s[i] == '_' || s[i] == '-'
  }

  predicate IsSha256(s: string) {
    |s| == 64 && forall i | 0 <= i < |s| :: '0' <= s[i] <= '9' || 'a' <= s[i] <= 'f'
  }

  /** The components of a path between its slashes. */
  function Components(path: string): seq<string> {
    if path == "" then [""]
    else
      var rest := Components(path[1..]);
      if path[0] == '/' then [""] + rest else [[path[0]] + rest[0]] + rest[1..]
  }

  predicate SafePath(path: string) {
    && SafeText(path, 4096) && '\\' !in path && path[0] != '/' && (|path| >= 2 ==> path[1] != ':')
    && forall i | 0 <= i < |Components(path)| :: Components(path)[i] !in {"", ".", ".."}
  }

  function KindName(kind: Kind): string {
    match kind case Config => "config" case Transcript => "transcript" case Audio => "audio"
  }

  function SelectionKey(kind: Kind): string {
    match kind case Config => "config" case Transcript => "transcripts" case Audio => "audio"
  }

  function KindOf(name: string): Option<Kind> {
    if name == "config" then Some(Config)
    else if name == "transcript" then Some(Transcript)
    else if name == "audio" then Some(Audio)
    else None
  }

  function Prefix(kind: Kind): string {
    SelectionKey(kind) + "/"
  }

  /* ---------- Invariants ---------- */

  predicate ValidArtifact(a: Artifact) {
    SafePath(a.archivePath) && Prefix(a.kind) <= a.archivePath && SafeToken(a.sourceIdentity) && IsSha256(a.sha256)
  }

  predicate Valid(m: Manifest) {
    Fitting(m) && forall i | 0 <= i < |m.artifacts| :: ValidArtifact(m.artifacts[i])
  }

  /** What a manifest checks of its fields, the artifacts one by one aside. */
  predicate Fitting(m: Manifest) {
    && SafeToken(m.jobId) && SafeText(m.created, 64) && SafeText(m.appVersion, 128)
    && m.mode in {"keyring", "passphrase", "off"} && m.enabled == (m.mode != "off")
    && ManifestAccepts(m.selection, m.artifacts)
    && |m.warnings| <= MAX_MANIFEST_WARNINGS && forall i | 0 <= i < |m.warnings| :: SafeText(m.warnings[i], 512)
  }

  /** `inner` lies below `outer`. */
  predicate Below(outer: string, inner: string) {
    outer + "/" <= inner
  }

  /** The two paths cannot both be files. */
  predicate Clash(a: string, b: string) {
    a == b || Below(a, b) || Below(b, a)
  }

  /** All artifacts can be staged as files side by side. */
  predicate PathsApart(artifacts: seq<Artifact>) {
    forall i, j | 0 <= i < j < |artifacts| :: !Clash(artifacts[i].archivePath, artifacts[j].archivePath)
  }

  /** The loop over the artifacts in `BackupManifest.__post_init__`. */
  method CheckArtifacts(selection: set<Kind>, artifacts: seq<Artifact>) returns (ok: bool)
    ensures ok <==> Fit(selection, artifacts)
  {
    var archivePaths: set<string> := {};
    for i := 0 to |artifacts|
      invariant Fit(selection, artifacts[..i])
      invariant forall path :: path in archivePaths <==> exists k :: 0 <= k < i && artifacts[k].archivePath == path
    {
      var artifact := artifacts[i];
      if artifact.archivePath in archivePaths || artifact.kind !in selection {
        return false;
      }
      archivePaths := archivePaths + {artifact.archivePath};
    }
    assert artifacts[..|artifacts|] == artifacts;
    ok := true;
  }

  /* ---------- Rendering ---------- */

  function ArtifactToDict(a: Artifact): Json {
    Object(map["archive_path" := Text(a.archivePath), "kind" := Text(KindName(a.kind)), "mtime_ns" := Number(a.mtimeNs),
               "sha256" := Text(a.sha256), "size" := Number(a.size), "source_identity" := Text(a.sourceIdentity)])
  }

  function EncryptionToDict(m: Manifest): Json {
    Object(map["enabled" := Bool(m.enabled), "envelope_version" := Number(m.envelopeVersion), "mode" := Text(m.mode)])
  }

  function SelectionToDict(selection: set<Kind>): Json {
    Object(map["config" := Bool(Config in selection), "transcripts" := Bool(Transcript in selection), "audio" := Bool(Audio in selection)])
  }

  function ArtifactItems(artifacts: seq<Artifact>): seq<Json> {
    seq(|artifacts|, i requires 0 <= i < |artifacts| => ArtifactToDict(artifacts[i]))
  }

  function WarningItems(warnings: seq<string>): seq<Json> {
    seq(|warnings|, i requires 0 <= i < |warnings| => Text(warnings[i]))
  }

  function ToDict(m: Manifest): Json {
    Object(map["app_version" := Text(m.appVersion),
               "artifacts" := List(ArtifactItems(m.artifacts)),
               "created_at_utc" := Text(m.created),
               "encryption" := EncryptionToDict(m),
               "job_id" := Text(m.jobId),
               "schema_version" := Number(SCHEMA_VERSION),
               "selection" := SelectionToDict(m.selection),
               "warnings" := List(WarningItems(m.warnings))])
  }

  /* ---------- Reading ---------- */

  const ARTIFACT_KEYS := {"kind", "archive_path", "source_identity", "size", "sha256", "mtime_ns"}

  function ArtifactFromMapping(j: Json): (r: Option<Artifact>)
    ensures r.Some? ==> ValidArtifact(r.value) && j == ArtifactToDict(r.value)
  {
    if !j.Object? || j.fields.Keys != ARTIFACT_KEYS then None
    else
      var f := j.fields;
      if f["kind"].Text? && f["archive_path"].Text? && f["source_identity"].Text? && f["sha256"].Text?
         && KindOf(f["kind"].text).Some? && f["size"].Number? && f["size"].value >= 0
         && f["mtime_ns"].Number? && f["mtime_ns"].value >= 0
      then
        var a := Artifact(KindOf(f["kind"].text).value, f["archive_path"].text, f["source_identity"].text,
                          f["size"].value, f["sha256"].text, f["mtime_ns"].value);
        if ValidArtifact(a) then Some(a) else None
      else None
  }

  function ArtifactsFromList(items: seq<Json>): Option<seq<Artifact>> {
    if items == [] then Some([])
    else
      var first := ArtifactFromMapping(items[0]);
      var rest := ArtifactsFromList(items[1..]);
      if first.Some? && rest.Some? then Some([first.value] + rest.value) else None
  }

  function WarningsFromList(items: seq<Json>): Option<seq<string>> {
    if items == [] then Some([])
    else
      var rest := WarningsFromList(items[1..]);
      if items[0].Text? && SafeText(items[0].text, 512) && rest.Some? then Some([items[0].text] + rest.value) else None
  }

  function SelectionFromMapping(j: Json): (r: Option<set<Kind>>)
    ensures r.Some? ==> r.value != {} && j == SelectionToDict(r.value)
  {
    if !j.Object? || j.fields.Keys != {"config", "transcripts", "audio"} then None
    else
      var f := j.fields;
      if f["config"].Bool? && f["transcripts"].Bool? && f["audio"].Bool? then
        var selection := (if f["config"].flag then {Config} else {}) + (if f["transcripts"].flag then {Transcript} else {})
                         + (if f["audio"].flag then {Audio} else {});
        if selection == {} then None else Some(selection)
      else None
  }

  const ROOT_KEYS :=
    {"schema_version", "job_id", "created_at_utc", "app_version", "encryption", "selection", "artifacts", "warnings"}

  predicate ScalarsTyped(f: map<string, Json>)
    requires f.Keys == ROOT_KEYS
  {
    && f["schema_version"] == Number(SCHEMA_VERSION) && f["job_id"].Text? && f["created_at_utc"].Text? && f["app_version"].Text?
    && f["artifacts"].List? && f["warnings"].List?
    && f["encryption"].Object? && f["encryption"].fields.Keys == {"enabled", "mode", "envelope_version"}
    && var e := f["encryption"].fields;
       e["enabled"].Bool? && e["mode"].Text? && e["envelope_version"].Number? && e["envelope_version"].value >= 0
  }

  function Assemble(f: map<string, Json>, selection: set<Kind>, artifacts: seq<Artifact>, warnings: seq<string>): Manifest
    requires f.Keys == ROOT_KEYS && ScalarsTyped(f)
  {
    var e := f["encryption"].fields;
    Manifest(f["job_id"].text, f["created_at_utc"].text, f["app_version"].text, e["enabled"].flag, e["mode"].text,
             e["envelope_version"].value, selection, artifacts, warnings)
  }

  function FromMapping(j: Json): Option<Manifest> {
    if !j.Object? || j.fields.Keys != ROOT_KEYS || !ScalarsTyped(j.fields) then None
    else
      var selection := SelectionFromMapping(j.fields["selection"]);
      var artifacts := ArtifactsFromList(j.fields["artifacts"].items);
      var warnings := WarningsFromList(j.fields["warnings"].items);
      if selection.None? || artifacts.None? || warnings.None? then None
      else
        var m := Assemble(j.fields, selection.value, artifacts.value, warnings.value);
        if Valid(m) then Some(m) else None
  }

  lemma ItemsOfOneMore(a: Artifact, rest: seq<Artifact>)
    ensures ArtifactItems([a] + rest) == [ArtifactToDict(a)] + ArtifactItems(rest)
  {
  }

  lemma {:induction false} ReadArtifactsAreRendered(items: seq<Json>)
    requires ArtifactsFromList(items).Some?
    ensures ArtifactItems(ArtifactsFromList(items).value) == items
  {
    if items != [] {
      var rest := ArtifactsFromList(items[1..]).value;
      var first := ArtifactFromMapping(items[0]).value;
      ReadArtifactsAreRendered(items[1..]);
      ItemsOfOneMore(first, rest);
    }
  }

  lemma {:induction false} ReadWarningsAreRendered(items: seq<Json>)
    requires WarningsFromList(items).Some?
    ensures WarningItems(WarningsFromList(items).value) == items
  {
    if items == [] {
    } else {
      ReadWarningsAreRendered(items[1..]);
      var warnings := WarningsFromList(items).value;
      assert warnings[1..] == WarningsFromList(items[1..]).value;
      assert WarningItems(warnings) == [Text(warnings[0])] + WarningItems(warnings[1..]);
    }
  }

  lemma AssembledRenders(f: map<string, Json>, selection: set<Kind>, artifacts: seq<Artifact>, warnings: seq<string>)
    requires f.Keys == ROOT_KEYS && ScalarsTyped(f) && f["selection"] == SelectionToDict(selection)
    requires f["artifacts"].items == ArtifactItems(artifacts) && f["warnings"].items == WarningItems(warnings)
    ensures ToDict(Assemble(f, selection, artifacts, warnings)) == Object(f)
  {
    var m := Assemble(f, selection, artifacts, warnings);
    assert f["encryption"] == EncryptionToDict(m) by {
      assert f["encryption"].fields == EncryptionToDict(m).fields;
    }
    assert f == ToDict(m).fields;
  }

  /** What the reader accepts is a valid manifest, rendered. */
  lemma AcceptedIsRendered(j: Json)
    requires FromMapping(j).Some?
    ensures Valid(FromMapping(j).value) && ToDict(FromMapping(j).value) == j
  {
    ReadArtifactsAreRendered(j.fields["artifacts"].items);
    ReadWarningsAreRendered(j.fields["warnings"].items);
    var m := FromMapping(j).value;
    AssembledRenders(j.fields, m.selection, m.artifacts, m.warnings);
  }

  lemma ArtifactRoundTrip(a: Artifact)
    requires ValidArtifact(a)
    ensures ArtifactFromMapping(ArtifactToDict(a)) == Some(a)
  {
    assert ArtifactToDict(a).fields.Keys == ARTIFACT_KEYS;
    assert KindOf(KindName(a.kind)) == Some(a.kind);
  }

  lemma {:induction false} ArtifactsRoundTrip(artifacts: seq<Artifact>, items: seq<Json>)
    requires |items| == |artifacts|
    requires forall i | 0 <= i < |items| :: ArtifactFromMapping(items[i]) == Some(artifacts[i])
    ensures ArtifactsFromList(items) == Some(artifacts)
  {
    if items == [] {
    } else {
      var first, rest := artifacts[0], artifacts[1..];
      ArtifactsRoundTrip(rest, items[1..]);
      assert ArtifactFromMapping(items[0]) == Some(first);
      assert artifacts == [first] + rest;
    }
  }

  lemma {:induction false} WarningsRoundTrip(warnings: seq<string>, items: seq<Json>)
    requires |items| == |warnings|
    requires forall i | 0 <= i < |items| :: SafeText(warnings[i], 512) && items[i] == Text(warnings[i])
    ensures WarningsFromList(items) == Some(warnings)
  {
    if items == [] {
    } else {
      WarningsRoundTrip(warnings[1..], items[1..]);
      assert warnings == [warnings[0]] + warnings[1..];
    }
  }

  lemma SelectionRoundTrip(selection: set<Kind>)
    requires selection != {}
    ensures SelectionFromMapping(SelectionToDict(selection)) == Some(selection)
  {
    var d := SelectionToDict(selection).fields;
    assert d.Keys == {"config", "transcripts", "audio"};
    var parsed := (if d["config"].flag then {Config} else {}) + (if d["transcripts"].flag then {Transcript} else {})
                  + (if d["audio"].flag then {Audio} else {});
    forall kind ensures kind in selection <==> kind in parsed {
      match kind case Config => case Transcript => case Audio =>
    }
    assert parsed == selection;
  }

  lemma ListsRoundTrip(m: Manifest)
    requires Valid(m)
    ensures ArtifactsFromList(ArtifactItems(m.artifacts)) == Some(m.artifacts)
    ensures WarningsFromList(WarningItems(m.warnings)) == Some(m.warnings)
  {
    forall i | 0 <= i < |m.artifacts| ensures ArtifactFromMapping(ArtifactItems(m.artifacts)[i]) == Some(m.artifacts[i]) {
      ArtifactRoundTrip(m.artifacts[i]);
    }
    ArtifactsRoundTrip(m.artifacts, ArtifactItems(m.artifacts));
    WarningsRoundTrip(m.warnings, WarningItems(m.warnings));
  }

  lemma RenderedAssembles(m: Manifest)
    ensures var f := ToDict(m).fields;
            && f.Keys == ROOT_KEYS && ScalarsTyped(f) && Assemble(f, m.selection, m.artifacts, m.warnings) == m
            && f["selection"] == SelectionToDict(m.selection)
            && f["artifacts"] == List(ArtifactItems(m.artifacts)) && f["warnings"] == List(WarningItems(m.warnings))
  {
    var f := ToDict(m).fields;
    assert f.Keys == ROOT_KEYS;
    assert f["encryption"].fields.Keys == {"enabled", "mode", "envelope_version"};
  }

  /** A valid manifest survives being rendered and read. */
  lemma ManifestRoundTrip(m: Manifest)
    requires Valid(m)
    ensures FromMapping(ToDict(m)) == Some(m)
  {
    RenderedAssembles(m);
    SelectionRoundTrip(m.selection);
    ListsRoundTrip(m);
  }
}
