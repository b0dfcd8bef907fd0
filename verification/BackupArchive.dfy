/** Building an archive from staged copies, verifying it, and reading its members.

    An archive is a sequence of members; a member's stream may be shorter or longer than its
    header says, and every read may return less than it was asked for.  `hash` and the text
    form of a manifest are parameters: any hash will do, and `parse` must undo `render`. */
module BackupArchive {
  import opened Wrappers
  import opened ShortReads
  import opened BackupCollector
  import opened BackupManifest

  const HASH_CHUNK_BYTES := 1048576
  const MAX_BACKUP_MEMBER_COUNT := 10_001
  const MANIFEST_NAME := "manifest.json"

  datatype Member = Member(name: string, regular: bool, size: nat, content: Bytes)

  /** The text form of JSON documents, and the digest. */
  datatype Codec = Codec(render: Json -> Bytes, parse: Bytes -> Option<Json>, hash: Bytes -> string)

  ghost predicate Faithful(c: Codec) {
    forall j :: c.parse(c.render(j)) == Some(j)
  }

  function ParseManifest(c: Codec, payload: Bytes): Option<Manifest> {
    if payload == [] || |payload| > MAX_MANIFEST_BYTES then None
    else
      var document := c.parse(payload);
      if document.None? then None else FromMapping(document.value)
  }

  /* ---------- Reading members ---------- */

  /** `_read_tar_member_exact`: the whole stream if it has exactly the expected size, however
      the reads split it. */
  method ReadTarMemberExact(stream: ShortStream<bv8>, expectedSize: nat) returns (r: Option<Bytes>)
    requires stream.Valid()
    modifies stream
    ensures r == if |old(stream.Rest())| == expectedSize then Some(old(stream.Rest())) else None
  {
    ghost var whole := stream.Rest();
    var data: Bytes := [];
    var remaining: nat := expectedSize;
    while true
      invariant stream.Valid() && data + stream.Rest() == whole && |data| + remaining == expectedSize
      decreases |stream.Rest()|
    {
      var chunk := stream.Read(if remaining + 1 < HASH_CHUNK_BYTES then remaining + 1 else HASH_CHUNK_BYTES);
      if chunk == [] {
        assert data == whole;
        return if remaining > 0 then None else Some(data);
      }
      if |chunk| > remaining {
        return None;
      }
      data := data + chunk;
      remaining := remaining - |chunk|;
      if remaining == 0 {
        var more := stream.Read(1);
        assert more == [] ==> data == whole;
        return if more != [] then None else Some(data);
      }
    }
  }

  /** `_hash_tar_member`: the digest of the whole stream if it has exactly the expected size. */
  method HashTarMember(c: Codec, stream: ShortStream<bv8>, expectedSize: nat) returns (r: Option<string>)
    requires stream.Valid()
    modifies stream
    ensures r == if |old(stream.Rest())| == expectedSize then Some(c.hash(old(stream.Rest()))) else None
  {
    ghost var whole := stream.Rest();
    var digested: Bytes := [];
    while true
      invariant stream.Valid() && digested + stream.Rest() == whole && |digested| <= expectedSize
      decreases |stream.Rest()|
    {
      var chunk := stream.Read(HASH_CHUNK_BYTES);
      if chunk == [] {
        break;
      }
      if |digested| + |chunk| > expectedSize {
        return None;
      }
      digested := digested + chunk;
    }
    assert digested == whole;
    r := if |digested| != expectedSize then None else Some(c.hash(digested));
  }

  /* ---------- Verification ---------- */

  ghost predicate DistinctNames(members: seq<Member>) {
    forall i, j | 0 <= i < j < |members| :: members[i].name != members[j].name
  }

  /** Each member may be in a backup at all. */
  predicate SafeMember(m: Member) {
    m.regular && (m.name == MANIFEST_NAME || SafePath(m.name))
  }

  predicate Holds(c: Codec, m: Member, a: Artifact) {
    m.name == a.archivePath && m.size == a.size && |m.content| == a.size && c.hash(m.content) == a.sha256
  }

  ghost predicate HasArtifact(artifacts: seq<Artifact>, path: string) {
    exists a :: a in artifacts && a.archivePath == path
  }

  ghost predicate HasMember(members: seq<Member>, name: string) {
    exists m :: m in members && m.name == name
  }

  /** Beside the manifest there are exactly the artifacts' members, with their bytes. */
  ghost predicate Described(c: Codec, members: seq<Member>, artifacts: seq<Artifact>) {
    && (forall m | m in members && m.name != MANIFEST_NAME :: HasArtifact(artifacts, m.name))
    && (forall a | a in artifacts :: exists m :: m in members && Holds(c, m, a))
  }

  /** The archive is exactly what the manifest inside it describes. */
  ghost predicate Accepted(c: Codec, members: seq<Member>, manifest: Manifest) {
    && 0 < |members| <= MAX_BACKUP_MEMBER_COUNT && DistinctNames(members)
    && (forall m | m in members :: SafeMember(m))
    && (exists m :: m in members && m.name == MANIFEST_NAME && m.size <= MAX_MANIFEST_BYTES
                    && ParseManifest(c, m.content) == Some(manifest))
    && Described(c, members, manifest.artifacts)
  }

  /** The member of a name, when names are distinct. */
  method FindMembers(members: seq<Member>) returns (r: Option<map<string, Member>>)
    ensures r.Some? <==> DistinctNames(members) && forall m | m in members :: SafeMember(m)
    ensures r.Some? ==> forall name :: name in r.value <==> HasMember(members, name)
    ensures r.Some? ==> forall name | name in r.value :: r.value[name] in members && r.value[name].name == name
  {
    var byName: map<string, Member> := map[];
    for i := 0 to |members|
      invariant DistinctNames(members[..i]) && forall m | m in members[..i] :: SafeMember(m)
      invariant forall name :: name in byName <==> HasMember(members[..i], name)
      invariant forall name | name in byName :: byName[name] in members[..i] && byName[name].name == name
    {
      var member := members[i];
      assert members[..i + 1] == members[..i] + [member];
      if !SafeMember(member) {
        assert member in members;
        return None;
      }
      if member.name in byName {
        ghost var k :| 0 <= k < i && members[k] == byName[member.name];
        assert members[k].name == members[i].name;
        return None;
      }
      byName := byName[member.name := member];
    }
    assert members[..|members|] == members;
    r := Some(byName);
  }

  /** Checks each artifact of the manifest against its member. */
  method CheckArtifactMembers(c: Codec, byName: map<string, Member>, artifacts: seq<Artifact>, cuts: nat -> nat) returns (ok: bool)
    requires forall a | a in artifacts :: a.archivePath in byName && byName[a.archivePath].name == a.archivePath
    ensures ok <==> forall a | a in artifacts :: Holds(c, byName[a.archivePath], a)
  {
    for i := 0 to |artifacts|
      invariant forall k | 0 <= k < i :: Holds(c, byName[artifacts[k].archivePath], artifacts[k])
    {
      var artifact := artifacts[i];
      assert artifact in artifacts;
      var member := byName[artifact.archivePath];
      if member.size != artifact.size {
        return false;
      }
      var stream := new ShortStream(member.content, cuts);
      var digest := HashTarMember(c, stream, artifact.size);
      if digest != Some(artifact.sha256) {
        return false;
      }
    }
    ok := true;
  }

  /** Compares the names with the manifest's, then the artifacts with their members. */
  method CheckMembers(c: Codec, members: seq<Member>, byName: map<string, Member>, artifacts: seq<Artifact>, cuts: nat -> nat)
    returns (ok: bool)
    requires DistinctNames(members) && MANIFEST_NAME in byName
    requires forall name :: name in byName <==> HasMember(members, name)
    requires forall name | name in byName :: byName[name] in members && byName[name].name == name
    ensures ok ==> Described(c, members, artifacts)
    ensures Described(c, members, artifacts) && (forall a | a in artifacts :: a.archivePath != MANIFEST_NAME) ==> ok
  {
    var expected := {MANIFEST_NAME} + set i | 0 <= i < |artifacts| :: artifacts[i].archivePath;
    NamesMatch(members, byName, artifacts);
    if byName.Keys != expected {
      return false;
    }
    ok := CheckArtifactMembers(c, byName, artifacts, cuts);
    HeldByName(c, members, byName, artifacts);
  }

  /** `_verify_tar_archive`, for every way the reads can be cut. */
  method VerifyTarArchive(c: Codec, members: seq<Member>, cuts: nat -> nat) returns (r: Option<Manifest>)
    ensures r.Some? ==> Accepted(c, members, r.value)
    ensures r.None? ==> forall manifest :: !Accepted(c, members, manifest)
  {
    if |members| > MAX_BACKUP_MEMBER_COUNT || members == [] {
      return None;
    }
    var found := FindMembers(members);
    if found.None? {
      return None;
    }
    var byName := found.value;
    if MANIFEST_NAME !in byName {
      return None;
    }
    var manifestMember := byName[MANIFEST_NAME];
    OneManifest(c, members, manifestMember);
    if manifestMember.size > MAX_MANIFEST_BYTES {
      return None;
    }
    r := ParseManifest(c, manifestMember.content);
    if r.None? {
      return;
    }
    var ok := CheckMembers(c, members, byName, r.value.artifacts, cuts);
    if !ok {
      r := None;
    }
  }

  /** Only the one manifest member can make an archive acceptable. */
  lemma OneManifest(c: Codec, members: seq<Member>, m: Member)
    requires DistinctNames(members) && m in members && m.name == MANIFEST_NAME
    ensures forall manifest | Accepted(c, members, manifest) ::
              m.size <= MAX_MANIFEST_BYTES && ParseManifest(c, m.content) == Some(manifest)
  {
    forall n | n in members && n.name == MANIFEST_NAME ensures n == m {
      var i :| 0 <= i < |members| && members[i] == m;
      var j :| 0 <= j < |members| && members[j] == n;
    }
  }

  lemma NamesMatch(members: seq<Member>, byName: map<string, Member>, artifacts: seq<Artifact>)
    requires forall name :: name in byName <==> HasMember(members, name)
    requires MANIFEST_NAME in byName
    ensures byName.Keys == {MANIFEST_NAME} + (set i | 0 <= i < |artifacts| :: artifacts[i].archivePath) <==>
              && (forall m | m in members && m.name != MANIFEST_NAME :: HasArtifact(artifacts, m.name))
              && (forall a | a in artifacts :: HasMember(members, a.archivePath))
  {
    var paths := set i | 0 <= i < |artifacts| :: artifacts[i].archivePath;
    assert forall path :: path in paths <==> HasArtifact(artifacts, path);
    var expected := {MANIFEST_NAME} + paths;
    if byName.Keys == expected {
      forall m | m in members && m.name != MANIFEST_NAME ensures HasArtifact(artifacts, m.name) {
        assert m.name in byName.Keys;
      }
      forall a | a in artifacts ensures HasMember(members, a.archivePath) {
        assert a.archivePath in expected;
      }
    }
    assert (forall m | m in members && m.name != MANIFEST_NAME :: HasArtifact(artifacts, m.name))
           && (forall a | a in artifacts :: HasMember(members, a.archivePath))
           ==> forall name :: name in byName.Keys <==> name in expected;
  }

  lemma HeldByName(c: Codec, members: seq<Member>, byName: map<string, Member>, artifacts: seq<Artifact>)
    requires DistinctNames(members)
    requires forall name | name in byName :: byName[name] in members && byName[name].name == name
    requires forall a | a in artifacts :: a.archivePath in byName
    ensures (forall a | a in artifacts :: Holds(c, byName[a.archivePath], a)) <==>
              forall a | a in artifacts :: exists m :: m in members && Holds(c, m, a)
  {
  }

  /* ---------- Building ---------- */

  /** A staged copy has the recorded size and digest. */
  predicate Staged(c: Codec, stage: map<string, Bytes>, a: Artifact) {
    a.archivePath in stage && |stage[a.archivePath]| == a.size && c.hash(stage[a.archivePath]) == a.sha256
  }

  function MemberOf(name: string, content: Bytes): Member {
    Member(name, true, |content|, content)
  }

  /** The members of the archive: the manifest, then each artifact in the manifest's order. */
  function ArchiveOf(c: Codec, stage: map<string, Bytes>, manifest: Manifest): seq<Member>
    requires forall a | a in manifest.artifacts :: a.archivePath in stage
  {
    [MemberOf(MANIFEST_NAME, c.render(ToDict(manifest)))]
    + seq(|manifest.artifacts|, i requires 0 <= i < |manifest.artifacts| =>
        MemberOf(manifest.artifacts[i].archivePath, stage[manifest.artifacts[i].archivePath]))
  }

  /** `_build_archive`: none when a staged copy is missing. */
  method BuildArchive(c: Codec, stage: map<string, Bytes>, manifest: Manifest) returns (r: Option<seq<Member>>)
    ensures r.Some? <==> forall a | a in manifest.artifacts :: a.archivePath in stage
    ensures r.Some? ==> r.value == ArchiveOf(c, stage, manifest)
  {
    var members := [MemberOf(MANIFEST_NAME, c.render(ToDict(manifest)))];
    for i := 0 to |manifest.artifacts|
      invariant forall k | 0 <= k < i :: manifest.artifacts[k].archivePath in stage
      invariant |members| == i + 1 && members[0] == MemberOf(MANIFEST_NAME, c.render(ToDict(manifest)))
      invariant forall k | 0 <= k < i ::
                  members[k + 1] == MemberOf(manifest.artifacts[k].archivePath, stage[manifest.artifacts[k].archivePath])
    {
      var path := manifest.artifacts[i].archivePath;
      if path !in stage {
        assert manifest.artifacts[i] in manifest.artifacts;
        return None;
      }
      members := members + [MemberOf(path, stage[path])];
    }
    r := Some(members);
  }

  lemma ArtifactIsNotManifest(a: Artifact)
    requires ValidArtifact(a)
    ensures a.archivePath != MANIFEST_NAME
  {
    assert Prefix(a.kind)[0] == a.archivePath[0];
  }

  lemma BuiltMembers(c: Codec, stage: map<string, Bytes>, manifest: Manifest)
    requires Valid(manifest) && forall a | a in manifest.artifacts :: a.archivePath in stage
    ensures DistinctNames(ArchiveOf(c, stage, manifest))
    ensures forall m | m in ArchiveOf(c, stage, manifest) ::
              SafeMember(m) && (m.name != MANIFEST_NAME ==> HasArtifact(manifest.artifacts, m.name))
  {
    var members, artifacts := ArchiveOf(c, stage, manifest), manifest.artifacts;
    forall i | 0 <= i < |artifacts| ensures ValidArtifact(artifacts[i]) && artifacts[i].archivePath != MANIFEST_NAME {
      ArtifactIsNotManifest(artifacts[i]);
    }
    forall i | 0 <= i < |members|
      ensures SafeMember(members[i]) && (members[i].name != MANIFEST_NAME ==> HasArtifact(artifacts, members[i].name))
    {
      if i > 0 {
        assert artifacts[i - 1] in artifacts;
      }
    }
  }

  lemma BuiltHolds(c: Codec, stage: map<string, Bytes>, manifest: Manifest)
    requires forall a | a in manifest.artifacts :: a.archivePath in stage
    requires forall a | a in manifest.artifacts :: Staged(c, stage, a)
    ensures forall a | a in manifest.artifacts :: exists m :: m in ArchiveOf(c, stage, manifest) && Holds(c, m, a)
  {
    var members, artifacts := ArchiveOf(c, stage, manifest), manifest.artifacts;
    forall a | a in artifacts ensures exists m :: m in members && Holds(c, m, a) {
      var i :| 0 <= i < |artifacts| && artifacts[i] == a;
      assert members[i + 1] in members && Holds(c, members[i + 1], a);
    }
  }

  /** An archive built from staged copies that match the manifest is accepted, and read back as
      the same manifest, exactly when the rendered manifest is small enough for the reader. */
  lemma BuiltIsAccepted(c: Codec, stage: map<string, Bytes>, manifest: Manifest)
    requires Faithful(c) && Valid(manifest) && c.render(ToDict(manifest)) != []
    requires forall a | a in manifest.artifacts :: a.archivePath in stage
    requires forall a | a in manifest.artifacts :: Staged(c, stage, a)
    ensures Accepted(c, ArchiveOf(c, stage, manifest), manifest) <==> |c.render(ToDict(manifest))| <= MAX_MANIFEST_BYTES
  {
    var members := ArchiveOf(c, stage, manifest);
    BuiltMembers(c, stage, manifest);
    BuiltHolds(c, stage, manifest);
    ManifestRoundTrip(manifest);
    var first := MemberOf(MANIFEST_NAME, c.render(ToDict(manifest)));
    assert members[0] == first && first in members;
    OneManifest(c, members, first);
  }
}
