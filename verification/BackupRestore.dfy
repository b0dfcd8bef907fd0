/** Restoring an archive into a new directory that appears under its name all at once. */
module BackupRestore {
  import opened Wrappers
  import opened ShortReads
  import opened BackupState
  import opened BackupManifest
  import opened BackupArchive

  /** The files below a directory, by relative path. */
  type Tree = map<string, Bytes>

  datatype RestoreFaults = RestoreFaults(prepare: Fault, create: nat -> Fault, stageSync: Fault, publish: Fault, sync: Fault)

  datatype Ended = Restored | Raised

  /** A directory or a file exists at the path. */
  predicate Exists(tree: Tree, path: string) {
    path in tree || exists p | p in tree :: Below(path, p)
  }

  function MemberNames(manifest: Manifest): seq<string> {
    [MANIFEST_NAME] + seq(|manifest.artifacts|, i requires 0 <= i < |manifest.artifacts| => manifest.artifacts[i].archivePath)
  }

  /** The first `n` paths can all be files. */
  ghost predicate ClashFree(names: seq<string>, n: nat)
    requires n <= |names|
  {
    forall i, j | 0 <= i < j < n :: !Clash(names[i], names[j])
  }

  /** Exactly the manifest and the artifacts, each with its recorded size and digest. */
  ghost predicate IsRestored(c: Codec, tree: Tree, manifest: Manifest) {
    && (forall path :: path in tree <==> path in MemberNames(manifest))
    && ParseManifest(c, tree[MANIFEST_NAME]) == Some(manifest)
    && (forall a | a in manifest.artifacts :: a.archivePath in tree)
    && (forall a | a in manifest.artifacts :: |tree[a.archivePath]| == a.size && c.hash(tree[a.archivePath]) == a.sha256)
  }

  lemma NamesOfArtifacts(manifest: Manifest)
    ensures MANIFEST_NAME in MemberNames(manifest)
    ensures forall a | a in manifest.artifacts :: a.archivePath in MemberNames(manifest)
  {
    assert MemberNames(manifest)[0] == MANIFEST_NAME;
    forall a | a in manifest.artifacts ensures a.archivePath in MemberNames(manifest) {
      var i :| 0 <= i < |manifest.artifacts| && manifest.artifacts[i] == a;
      assert MemberNames(manifest)[i + 1] == a.archivePath;
    }
  }

  /** The bytes the archive has for a name. */
  ghost predicate Content(members: seq<Member>, name: string, content: Bytes) {
    exists m :: m in members && m.name == name && m.content == content
  }

  /** A tree holding the archive's bytes under exactly the manifest's names is the restored tree. */
  lemma CopiedIsRestored(c: Codec, members: seq<Member>, manifest: Manifest, tree: Tree)
    requires Accepted(c, members, manifest)
    requires forall path :: path in tree <==> path in MemberNames(manifest)
    requires forall path | path in tree :: Content(members, path, tree[path])
    ensures IsRestored(c, tree, manifest)
  {
    NamesOfArtifacts(manifest);
    var m :| m in members && m.name == MANIFEST_NAME && m.content == tree[MANIFEST_NAME];
    OneManifest(c, members, m);
    forall a | a in manifest.artifacts
      ensures |tree[a.archivePath]| == a.size && c.hash(tree[a.archivePath]) == a.sha256
    {
      var x :| x in members && Holds(c, x, a);
      var y :| y in members && y.name == a.archivePath && y.content == tree[a.archivePath];
      SameName(members, x, y);
    }
  }

  lemma SameName(members: seq<Member>, x: Member, y: Member)
    requires DistinctNames(members) && x in members && y in members && x.name == y.name
    ensures x == y
  {
    var i :| 0 <= i < |members| && members[i] == x;
    var j :| 0 <= j < |members| && members[j] == y;
  }

  lemma NamesHaveMembers(c: Codec, members: seq<Member>, manifest: Manifest)
    requires Accepted(c, members, manifest)
    ensures forall name | name in MemberNames(manifest) :: HasMember(members, name)
  {
    var names := MemberNames(manifest);
    forall i | 0 <= i < |names| ensures HasMember(members, names[i]) {
      if i > 0 {
        var a := manifest.artifacts[i - 1];
        assert a in manifest.artifacts && names[i] == a.archivePath;
        var m :| m in members && Holds(c, m, a);
      }
    }
  }

  method GetMember(members: seq<Member>, name: string) returns (m: Member)
    requires HasMember(members, name)
    ensures m in members && m.name == name
  {
    ghost var k :| 0 <= k < |members| && members[k].name == name;
    var i := 0;
    while members[i].name != name
      invariant 0 <= i <= k
      decreases k - i
    {
      i := i + 1;
    }
    m := members[i];
  }

  /** The streams are as long as their headers say. */
  ghost predicate Whole(members: seq<Member>) {
    forall m | m in members && m.name == MANIFEST_NAME :: |m.content| == m.size
  }

  /** Creates a new file below the staging directory. */
  method CreateInStage(stage: Tree, path: string, content: Bytes, fault: Fault) returns (r: Option<Tree>)
    ensures r.Some? <==> fault == NoFault && forall p | p in stage :: !Clash(p, path)
    ensures r.Some? ==> r.value == stage[path := content]
  {
    if fault != NoFault || path in stage || Exists(stage, path) || (exists p | p in stage :: Below(p, path)) {
      return None;
    }
    r := Some(stage[path := content]);
  }

  /** Reads one member and creates its file. */
  method RestoreMember(members: seq<Member>, stage: Tree, name: string, expectedSize: nat, cuts: nat -> nat, fault: Fault)
    returns (r: Option<Tree>)
    requires HasMember(members, name) && DistinctNames(members)
    requires forall m | m in members && m.name == name :: m.size == expectedSize
    ensures r.Some? <==>
              && fault == NoFault && (forall p | p in stage :: !Clash(p, name))
              && forall m | m in members && m.name == name :: |m.content| == expectedSize
    ensures r.Some? ==> exists m :: m in members && m.name == name && r.value == stage[name := m.content]
  {
    var member := GetMember(members, name);
    forall m | m in members && m.name == name ensures m == member {
      SameName(members, m, member);
    }
    var stream := new ShortStream(member.content, cuts);
    var content := ReadTarMemberExact(stream, expectedSize);
    if content.None? {
      return None;
    }
    r := CreateInStage(stage, name, content.value, fault);
  }

  /** Every creation succeeds. */
  ghost predicate AllCreated(f: RestoreFaults, count: nat) {
    forall i | 0 <= i < count :: f.create(i) == NoFault
  }

  /** Of the accepted members only the manifest can differ from its header. */
  lemma MemberIsWhole(c: Codec, members: seq<Member>, manifest: Manifest, i: nat, m: Member)
    requires Accepted(c, members, manifest) && i < |MemberNames(manifest)| && m in members && m.name == MemberNames(manifest)[i]
    ensures i > 0 ==> |m.content| == m.size
    ensures i == 0 ==> (Whole(members) <==> |m.content| == m.size)
  {
    if i == 0 {
      forall n | n in members && n.name == MANIFEST_NAME ensures n == m {
        SameName(members, n, m);
      }
    } else {
      var a := manifest.artifacts[i - 1];
      assert a in manifest.artifacts;
      var x :| x in members && Holds(c, x, a);
      SameName(members, x, m);
    }
  }

  /** The stage holds the archive's bytes for the first `n` names and nothing else. */
  ghost predicate Filled(members: seq<Member>, names: seq<string>, n: nat, stage: Tree)
    requires n <= |names|
  {
    && (forall path :: path in stage <==> path in names[..n])
    && (forall path | path in stage :: Content(members, path, stage[path]))
  }

  lemma FilledNext(members: seq<Member>, names: seq<string>, n: nat, stage: Tree, m: Member)
    requires n < |names| && Filled(members, names, n, stage) && m in members && m.name == names[n]
    ensures Filled(members, names, n + 1, stage[names[n] := m.content])
  {
    assert names[..n + 1] == names[..n] + [names[n]];
    var next := stage[names[n] := m.content];
    forall path | path in next ensures Content(members, path, next[path]) {
      assert path != names[n] ==> Content(members, path, stage[path]);
    }
  }

  /** Restores the `n`-th member. */
  method AddMember(c: Codec, members: seq<Member>, manifest: Manifest, n: nat, stage: Tree, cuts: nat -> nat, fault: Fault)
    returns (r: Option<Tree>)
    requires Accepted(c, members, manifest) && n < |MemberNames(manifest)| && Filled(members, MemberNames(manifest), n, stage)
    ensures r.Some? <==>
              && fault == NoFault && (n == 0 ==> Whole(members))
              && forall k | 0 <= k < n :: !Clash(MemberNames(manifest)[k], MemberNames(manifest)[n])
    ensures r.Some? ==> Filled(members, MemberNames(manifest), n + 1, r.value)
  {
    var names := MemberNames(manifest);
    NamesHaveMembers(c, members, manifest);
    var member := GetMember(members, names[n]);
    forall m | m in members && m.name == names[n] ensures m == member {
      SameName(members, m, member);
    }
    MemberIsWhole(c, members, manifest, n, member);
    FilledNext(members, names, n, stage, member);
    assert forall k | 0 <= k < n :: names[..n][k] == names[k];
    r := RestoreMember(members, stage, names[n], member.size, cuts, fault);
  }

  /** Fills the staging directory with the manifest and the artifacts. */
  method FillStage(c: Codec, members: seq<Member>, manifest: Manifest, cuts: nat -> nat, f: RestoreFaults) returns (r: Option<Tree>)
    requires Accepted(c, members, manifest)
    ensures r.Some? <==> AllCreated(f, |MemberNames(manifest)|) && ClashFree(MemberNames(manifest), |MemberNames(manifest)|) && Whole(members)
    ensures r.Some? ==> IsRestored(c, r.value, manifest)
  {
    ghost var names := MemberNames(manifest);
    var stage: Tree := map[];
    for i := 0 to |MemberNames(manifest)|
      invariant AllCreated(f, i) && ClashFree(names, i) && (i > 0 ==> Whole(members))
      invariant Filled(members, names, i, stage)
    {
      var added := AddMember(c, members, manifest, i, stage, cuts, f.create(i));
      if added.None? {
        assert f.create(i) != NoFault || !Whole(members) || exists k :: 0 <= k < i && Clash(names[k], names[i]);
        return None;
      }
      stage := added.value;
    }
    assert names[..|names|] == names;
    CopiedIsRestored(c, members, manifest, stage);
    r := Some(stage);
  }

  /** The archive, read twice, describes the same manifest both times. */
  ghost predicate SameManifest(c: Codec, planned: seq<Member>, payload: seq<Member>, manifest: Manifest) {
    Accepted(c, planned, manifest) && Accepted(c, payload, manifest)
  }

  /** Everything a restore needs beside calls that work. */
  ghost predicate Restorable(c: Codec, planned: seq<Member>, payload: seq<Member>, manifest: Manifest) {
    SameManifest(c, planned, payload, manifest) && ClashFree(MemberNames(manifest), |MemberNames(manifest)|) && Whole(payload)
  }

  /** Every call before the publishing rename works. */
  ghost predicate ReachesPublication(f: RestoreFaults, manifest: Manifest) {
    f.prepare == NoFault && AllCreated(f, |MemberNames(manifest)|) && f.stageSync == NoFault
  }

  class RestoreTarget {
    var destination: Option<Tree>

    constructor ()
      ensures destination == None
    {
      destination := None;
    }

    /** `restore_backup`.  `manifest` is the plan's manifest, if the archive has one.  The
        destination is bound exactly when the publishing rename takes effect, and then to the
        complete tree, even if the rename or the sync after it reports an error. */
    method RestoreBackup(c: Codec, planned: seq<Member>, payload: seq<Member>, cuts: nat -> nat, f: RestoreFaults)
      returns (outcome: Ended, manifest: Option<Manifest>)
      modifies this
      ensures manifest.Some? ==> Accepted(c, planned, manifest.value)
      ensures manifest.None? ==> forall m :: !Accepted(c, planned, m)
      ensures outcome == Restored <==>
                && manifest.Some? && old(destination) == None && Restorable(c, planned, payload, manifest.value)
                && ReachesPublication(f, manifest.value) && f.publish == NoFault && f.sync == NoFault
      ensures destination != old(destination) <==>
                && manifest.Some? && old(destination) == None && Restorable(c, planned, payload, manifest.value)
                && ReachesPublication(f, manifest.value) && TakesEffect(f.publish)
      ensures destination != old(destination) ==> destination.Some? && IsRestored(c, destination.value, manifest.value)
    {
      manifest := VerifyTarArchive(c, planned, cuts);
      if manifest.None? {
        return Raised, manifest;
      }
      if destination.Some? && exists i | 0 <= i < |MemberNames(manifest.value)| :: Exists(destination.value, MemberNames(manifest.value)[i]) {
        return Raised, manifest;
      }
      var again := VerifyTarArchive(c, payload, cuts);
      if again != manifest {
        return Raised, manifest;
      }
      if destination.Some? || f.prepare != NoFault {
        return Raised, manifest;
      }
      var stage := FillStage(c, payload, manifest.value, cuts, f);
      if stage.None? || f.stageSync != NoFault {
        return Raised, manifest;
      }
      if TakesEffect(f.publish) {
        destination := stage;
      }
      outcome := if f.publish == NoFault && f.sync == NoFault then Restored else Raised;
    }
  }
}
