/** Archive paths in their normal form, and manifests that cannot be read back.

    The constructor of an artifact checks its path and then normalises it, component by component;
    the normal form is not checked again.  Normalisation is a parameter with the two laws that
    Unicode's canonical composition has. */
module NormalPaths {
  import opened Wrappers
  import opened BackupState
  import opened BackupCollector
  import opened BackupManifest
  import opened SafePaths

  const MAX_PATH := 4096

  predicate SafeChars(s: string) {
    forall i | 0 <= i < |s| :: s[i] as int >= 0x20 && s[i] as int != 0x7F && s[i] != '\\'
  }

  predicate SafeComponent(s: string) {
    s !in {"", ".", ".."} && '/' !in s && SafeChars(s)
  }

  /** A normal form is stable, and safe for a safe component. */
  ghost predicate Normalises(nfc: string -> string) {
    forall s | SafeComponent(s) :: SafeComponent(nfc(s)) && nfc(nfc(s)) == nfc(s)
  }

  function Join(parts: seq<string>): string {
    if |parts| == 0 then "" else if |parts| == 1 then parts[0] else parts[0] + "/" + Join(parts[1..])
  }

  function Each(nfc: string -> string, parts: seq<string>): seq<string> {
    seq(|parts|, i requires 0 <= i < |parts| => nfc(parts[i]))
  }

  function NormalPath(nfc: string -> string, path: string): string {
    Join(Each(nfc, Components(path)))
  }

  lemma {:induction false} ComponentsOfJoin(parts: seq<string>)
    requires |parts| > 0 && forall i | 0 <= i < |parts| :: '/' !in parts[i]
    ensures Components(Join(parts)) == parts
  {
    if |parts| == 1 {
      OneComponent(parts[0]);
    } else {
      ComponentsOfJoin(parts[1..]);
      FirstComponent(parts[0], Join(parts[1..]));
    }
  }

  lemma JoinOfTwo(a: string, b: string)
    ensures Join([a, b]) == a + "/" + b
  {
    var parts := [a, b];
    assert parts[1..] == [b];
  }

  lemma {:induction false} JoinAfterEmpty(parts: seq<string>, all: seq<string>)
    requires |parts| > 0 && |all| > 1 && all[0] == "" && all[1..] == parts
    ensures Join(all) == ['/'] + Join(parts)
  {
    assert Join(all) == all[0] + "/" + Join(all[1..]);
  }

  lemma {:induction false} JoinLonger(c: char, parts: seq<string>, all: seq<string>)
    requires |all| == |parts| > 0 && all[0] == [c] + parts[0] && all[1..] == parts[1..]
    ensures Join(all) == [c] + Join(parts)
  {
    if |parts| > 1 {
      Prepended(c, parts[0], Join(parts[1..]));
    }
  }

  lemma Prepended(c: char, part: string, rest: string)
    ensures [c] + part + "/" + rest == [c] + (part + "/" + rest)
  {
  }

  lemma {:induction false} JoinOfComponents(path: string)
    ensures |Components(path)| > 0 && Join(Components(path)) == path
  {
    if path != "" {
      var rest, all := Components(path[1..]), Components(path);
      JoinOfComponents(path[1..]);
      if path[0] == '/' {
        JoinAfterEmpty(rest, all);
      } else {
        JoinLonger(path[0], rest, all);
      }
      assert path == [path[0]] + path[1..];
    }
  }

  lemma {:induction false} PartsAreSafe(path: string)
    requires SafeChars(path)
    ensures forall i | 0 <= i < |Components(path)| :: '/' !in Components(path)[i] && SafeChars(Components(path)[i])
  {
    if path != "" {
      PartsAreSafe(path[1..]);
    }
  }

  lemma {:induction false} JoinedIsSafe(parts: seq<string>)
    requires forall i | 0 <= i < |parts| :: SafeChars(parts[i])
    ensures SafeChars(Join(parts))
  {
    if |parts| > 1 {
      JoinedIsSafe(parts[1..]);
      assert SafeChars("/");
    }
  }

  /** The components of a safe path. */
  lemma SafeParts(path: string)
    requires SafePath(path)
    ensures |Components(path)| > 0 && forall i | 0 <= i < |Components(path)| :: SafeComponent(Components(path)[i])
  {
    JoinOfComponents(path);
    PartsAreSafe(path);
  }

  /** The normal form of a safe path is stable, and safe unless it is too long or has its second
      character from a drive. */
  lemma NormalFormIs(nfc: string -> string, path: string)
    requires Normalises(nfc) && SafePath(path)
    ensures var p := NormalPath(nfc, path);
            && NormalPath(nfc, p) == p && p != "" && "" !in Each(nfc, Components(path))
            && (SafePath(p) <==> |p| <= MAX_PATH && (|p| >= 2 ==> p[1] != ':'))
  {
    var parts, p := Each(nfc, Components(path)), NormalPath(nfc, path);
    SafeParts(path);
    assert forall i | 0 <= i < |parts| :: SafeComponent(parts[i]) && nfc(parts[i]) == parts[i];
    ComponentsOfJoin(parts);
    assert Each(nfc, parts) == parts;
    JoinedIsSafe(parts);
    FirstOfJoin(parts);
  }

  lemma FirstOfJoin(parts: seq<string>)
    requires |parts| > 0 && parts[0] != "" && '/' !in parts[0]
    ensures Join(parts) != "" && Join(parts)[0] == parts[0][0] && Join(parts)[0] != '/'
  {
  }

  /* ---------- Artifacts ---------- */

  /** `BackupArtifact(...)`. */
  function Construct(nfc: string -> string, a: Artifact): Option<Artifact> {
    if !SafePath(a.archivePath) || "" in Each(nfc, Components(a.archivePath)) then None
    else
      var b := a.(archivePath := NormalPath(nfc, a.archivePath));
      if Prefix(b.kind) <= b.archivePath && SafeToken(b.sourceIdentity) && IsSha256(b.sha256) then Some(b) else None
  }

  /** What the fields of a document spell, before any check. */
  function Spelt(j: Json): Option<Artifact> {
    if !j.Object? || j.fields.Keys != ARTIFACT_KEYS then None
    else
      var f := j.fields;
      if f["kind"].Text? && f["archive_path"].Text? && f["source_identity"].Text? && f["sha256"].Text?
         && KindOf(f["kind"].text).Some? && f["size"].Number? && f["size"].value >= 0
         && f["mtime_ns"].Number? && f["mtime_ns"].value >= 0
      then
        Some(Artifact(KindOf(f["kind"].text).value, f["archive_path"].text, f["source_identity"].text,
                      f["size"].value, f["sha256"].text, f["mtime_ns"].value))
      else None
  }

  /** `BackupArtifact.from_mapping`. */
  function ReadArtifact(nfc: string -> string, j: Json): Option<Artifact> {
    if Spelt(j).Some? then Construct(nfc, Spelt(j).value) else None
  }

  lemma SpeltIsRendered(a: Artifact)
    ensures Spelt(ArtifactToDict(a)) == Some(a)
  {
    assert ArtifactToDict(a).fields.Keys == ARTIFACT_KEYS;
    assert KindOf(KindName(a.kind)) == Some(a.kind);
  }

  /** A path of the kind's category does not look like a drive. */
  lemma PrefixIsNoDrive(a: Artifact)
    requires Prefix(a.kind) <= a.archivePath
    ensures |a.archivePath| >= 2 && a.archivePath[1] != ':'
  {
    assert a.archivePath[1] == Prefix(a.kind)[1];
  }

  /** Every artifact that was constructed is read back from its rendering exactly if the normal form of
      its path is not too long. */
  lemma ConstructedRoundTrip(nfc: string -> string, raw: Artifact)
    requires Normalises(nfc) && Construct(nfc, raw).Some?
    ensures var a := Construct(nfc, raw).value;
            ReadArtifact(nfc, ArtifactToDict(a)) == if |a.archivePath| <= MAX_PATH then Some(a) else None
  {
    var a := Construct(nfc, raw).value;
    NormalFormIs(nfc, raw.archivePath);
    SpeltIsRendered(a);
    PrefixIsNoDrive(a);
    if SafePath(a.archivePath) {
      NormalFormIs(nfc, a.archivePath);
    }
  }

  /** For a path in normal form, reading with normalisation is reading without. */
  lemma NormalReadsAlike(nfc: string -> string, j: Json)
    requires Normalises(nfc) && Spelt(j).Some? && NormalPath(nfc, Spelt(j).value.archivePath) == Spelt(j).value.archivePath
    ensures ReadArtifact(nfc, j) == ArtifactFromMapping(j)
  {
    if SafePath(Spelt(j).value.archivePath) {
      NormalFormIs(nfc, Spelt(j).value.archivePath);
    }
  }

  /* ---------- Manifests ---------- */

  function ReadArtifacts(nfc: string -> string, items: seq<Json>): Option<seq<Artifact>> {
    if items == [] then Some([])
    else
      var first := ReadArtifact(nfc, items[0]);
      var rest := ReadArtifacts(nfc, items[1..]);
      if first.Some? && rest.Some? then Some([first.value] + rest.value) else None
  }

  /** `BackupManifest.from_mapping`. */
  function ReadManifest(nfc: string -> string, j: Json): Option<Manifest> {
    if !j.Object? || j.fields.Keys != ROOT_KEYS || !ScalarsTyped(j.fields) then None
    else
      var selection := SelectionFromMapping(j.fields["selection"]);
      var artifacts := ReadArtifacts(nfc, j.fields["artifacts"].items);
      var warnings := WarningsFromList(j.fields["warnings"].items);
      if selection.None? || artifacts.None? || warnings.None? then None
      else
        var m := Assemble(j.fields, selection.value, artifacts.value, warnings.value);
        if Fitting(m) then Some(m) else None
  }

  /** The artifact came out of the constructor. */
  ghost predicate Constructed(nfc: string -> string, a: Artifact) {
    exists raw :: Construct(nfc, raw) == Some(a)
  }

  predicate ShortPaths(artifacts: seq<Artifact>) {
    forall i | 0 <= i < |artifacts| :: |artifacts[i].archivePath| <= MAX_PATH
  }

  lemma {:induction false} ArtifactsReadBack(nfc: string -> string, artifacts: seq<Artifact>)
    requires Normalises(nfc) && forall i | 0 <= i < |artifacts| :: Constructed(nfc, artifacts[i])
    ensures ReadArtifacts(nfc, ArtifactItems(artifacts)) == if ShortPaths(artifacts) then Some(artifacts) else None
  {
    if artifacts != [] {
      var a, rest := artifacts[0], artifacts[1..];
      var raw :| Construct(nfc, raw) == Some(a);
      ConstructedRoundTrip(nfc, raw);
      ArtifactsReadBack(nfc, rest);
      ShortPathsOfOneMore(a, rest);
      assert artifacts == [a] + rest;
      ItemsOfOneMore(a, rest);
      var items := ArtifactItems(artifacts);
      assert items[0] == ArtifactToDict(a) && items[1..] == ArtifactItems(rest);
    }
  }

  lemma ShortPathsOfOneMore(a: Artifact, rest: seq<Artifact>)
    ensures ShortPaths([a] + rest) <==> |a.archivePath| <= MAX_PATH && ShortPaths(rest)
  {
    assert ([a] + rest)[1..] == rest;
    if ShortPaths([a] + rest) {
      forall i | 0 <= i < |rest| ensures |rest[i].archivePath| <= MAX_PATH {
        assert ([a] + rest)[i + 1] == rest[i];
      }
      assert ([a] + rest)[0] == a;
    }
  }

  /** Every manifest that was constructed is read back from its rendering exactly if no path of it has too
      long a normal form; otherwise it is refused. */
  lemma ConstructedManifestRoundTrip(nfc: string -> string, m: Manifest)
    requires Normalises(nfc) && Fitting(m) && forall i | 0 <= i < |m.artifacts| :: Constructed(nfc, m.artifacts[i])
    ensures ReadManifest(nfc, ToDict(m)) == if ShortPaths(m.artifacts) then Some(m) else None
  {
    RenderedAssembles(m);
    SelectionRoundTrip(m.selection);
    WarningsRoundTrip(m.warnings, WarningItems(m.warnings));
    ArtifactsReadBack(nfc, m.artifacts);
  }

  /** What the reader accepts was constructed, so reading it again changes nothing, or fails over its length. */
  lemma {:induction false} ReadAreConstructed(nfc: string -> string, items: seq<Json>)
    requires ReadArtifacts(nfc, items).Some?
    ensures forall i | 0 <= i < |ReadArtifacts(nfc, items).value| :: Constructed(nfc, ReadArtifacts(nfc, items).value[i])
  {
    if items != [] {
      ReadAreConstructed(nfc, items[1..]);
      assert Construct(nfc, Spelt(items[0]).value) == ReadArtifact(nfc, items[0]);
      assert Constructed(nfc, ReadArtifact(nfc, items[0]).value);
    }
  }

  lemma ReadAgain(nfc: string -> string, j: Json)
    requires Normalises(nfc) && ReadManifest(nfc, j).Some?
    ensures var m := ReadManifest(nfc, j).value;
            ReadManifest(nfc, ToDict(m)) == if ShortPaths(m.artifacts) then Some(m) else None
  {
    ReadAreConstructed(nfc, j.fields["artifacts"].items);
    ConstructedManifestRoundTrip(nfc, ReadManifest(nfc, j).value);
  }

  /** Every path of a document is in normal form. */
  ghost predicate InNormalForm(nfc: string -> string, items: seq<Json>) {
    forall i | 0 <= i < |items| && Spelt(items[i]).Some? ::
      NormalPath(nfc, Spelt(items[i]).value.archivePath) == Spelt(items[i]).value.archivePath
  }

  lemma {:induction false} NormalItemsReadAlike(nfc: string -> string, items: seq<Json>)
    requires Normalises(nfc) && InNormalForm(nfc, items)
    ensures ReadArtifacts(nfc, items) == ArtifactsFromList(items)
    ensures ArtifactsFromList(items).Some? ==>
              forall i | 0 <= i < |ArtifactsFromList(items).value| :: ValidArtifact(ArtifactsFromList(items).value[i])
  {
    if items != [] {
      NormalItemsReadAlike(nfc, items[1..]);
      if Spelt(items[0]).Some? {
        NormalReadsAlike(nfc, items[0]);
      }
    }
  }

  /** A document whose paths are in normal form is read as it is read without normalisation. */
  lemma NormalManifestReadsAlike(nfc: string -> string, j: Json)
    requires Normalises(nfc)
    requires j.Object? && j.fields.Keys == ROOT_KEYS && ScalarsTyped(j.fields) ==> InNormalForm(nfc, j.fields["artifacts"].items)
    ensures ReadManifest(nfc, j) == FromMapping(j)
  {
    if j.Object? && j.fields.Keys == ROOT_KEYS && ScalarsTyped(j.fields) {
      NormalItemsReadAlike(nfc, j.fields["artifacts"].items);
    }
  }

  /* ---------- A path that grows ---------- */

  const QA := '\U{0958}'
  const KA := '\U{0915}'
  const NUKTA := '\U{093C}'

  /** U+0958 is excluded from composition: its normal form is two characters. */
  function Expand(s: string): string {
    if s == "" then "" else (if s[0] == QA then [KA, NUKTA] else [s[0]]) + Expand(s[1..])
  }

  lemma {:induction false} ExpandIs(s: string)
    ensures QA !in Expand(s) && (s != "" ==> Expand(s) != "")
    ensures forall c | c in Expand(s) :: c in s || c == KA || c == NUKTA
    ensures QA !in s ==> Expand(s) == s
    ensures QA in s ==> NUKTA in Expand(s)
  {
    if s != "" {
      ExpandIs(s[1..]);
      assert s == [s[0]] + s[1..];
    }
  }

  lemma ExpandNormalises()
    ensures Normalises(Expand)
  {
    forall s | SafeComponent(s) ensures SafeComponent(Expand(s)) && Expand(Expand(s)) == Expand(s) {
      ExpandIs(s);
      ExpandIs(Expand(s));
      forall i | 0 <= i < |Expand(s)| ensures Expand(s)[i] as int >= 0x20 && Expand(s)[i] as int != 0x7F && Expand(s)[i] != '\\' {
        var c := Expand(s)[i];
        assert c in Expand(s);
        if c in s {
          var k :| 0 <= k < |s| && s[k] == c;
        }
      }
    }
  }

  function Growing(n: nat): string {
    seq(n, _ => QA)
  }

  lemma {:induction false} GrowingDoubles(n: nat)
    ensures |Expand(Growing(n))| == 2 * n
  {
    if n > 0 {
      GrowingDoubles(n - 1);
      assert Growing(n)[1..] == Growing(n - 1);
    }
  }

  function GrowingArtifact(a: Artifact, directory: string, n: nat): Artifact {
    a.(archivePath := directory + "/" + Growing(n))
  }

  lemma PlainIsExpanded(directory: string)
    requires Plain(directory)
    ensures SafeChars(directory) && '/' !in directory && directory !in {"", ".", ".."} && Expand(directory) == directory
  {
    forall i | 0 <= i < |directory| ensures directory[i] != QA && directory[i] != '.' && directory[i] != '/' {
      assert IsAlphanumeric(directory[i]);
    }
    ExpandIs(directory);
  }

  lemma GrowingParts(directory: string, file: string)
    requires Plain(directory) && '/' !in file && file != ""
    ensures var path := directory + "/" + file;
            && Components(path) == [directory, file] && "" !in Each(Expand, Components(path))
            && NormalPath(Expand, path) == directory + "/" + Expand(file)
  {
    var path := directory + "/" + file;
    PlainIsExpanded(directory);
    OneComponent(file);
    FirstComponent(directory, file);
    ExpandIs(file);
    assert Each(Expand, [directory, file]) == [directory, Expand(file)];
    JoinOfTwo(directory, Expand(file));
  }

  lemma GrowingPath(directory: string, n: nat)
    requires Plain(directory) && |directory| >= 2 && 0 < n && |directory| + 1 + n <= MAX_PATH
    ensures SafePath(directory + "/" + Growing(n))
  {
    var file := Growing(n);
    var path := directory + "/" + file;
    PlainIsExpanded(directory);
    GrowingParts(directory, file);
    SafeWithSlash(directory, file);
    assert file[0] == QA;
    assert path[0] == directory[0] && path[1] == directory[1] && IsAlphanumeric(directory[1]);
  }

  lemma SafeWithSlash(a: string, b: string)
    requires SafeChars(a) && SafeChars(b)
    ensures SafeChars(a + "/" + b)
  {
  }

  /** An artifact that the constructor takes and whose rendering the reader refuses. */
  lemma LongPathExample(a: Artifact, n: nat)
    requires SafeToken(a.sourceIdentity) && IsSha256(a.sha256)
    requires MAX_PATH < |Prefix(a.kind)| + 2 * n && |Prefix(a.kind)| + n <= MAX_PATH
    ensures var raw := GrowingArtifact(a, SelectionKey(a.kind), n);
            Construct(Expand, raw).Some? && ReadArtifact(Expand, ArtifactToDict(Construct(Expand, raw).value)) == None
  {
    var raw := GrowingArtifact(a, SelectionKey(a.kind), n);
    KeyIsPlain(a.kind);
    GrowingPath(SelectionKey(a.kind), n);
    GrowingParts(SelectionKey(a.kind), Growing(n));
    GrowingDoubles(n);
    ExpandNormalises();
    ConstructedRoundTrip(Expand, raw);
  }

  lemma KeyIsPlain(kind: Kind)
    ensures Plain(SelectionKey(kind)) && |SelectionKey(kind)| >= 2
  {
  }
}
