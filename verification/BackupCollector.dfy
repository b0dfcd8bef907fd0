/** Choosing what goes into a backup.

    Each selected source is taken once: a second source with the same bytes is dropped, two
    different sources may not share an archive path, and an unchanged configuration file
    that a successful job already archived is left out. */
module BackupCollector {
  import opened Wrappers
  import opened BackupState

  const MAX_MANIFEST_ARTIFACTS := 10_000

  datatype Artifact = Artifact(kind: Kind, archivePath: string, sourceIdentity: string, size: nat, sha256: string, mtimeNs: nat)

  datatype Fingerprint = Fingerprint(kind: Kind, size: nat, sha256: string)

  function Print(a: Artifact): Fingerprint {
    Fingerprint(a.kind, a.size, a.sha256)
  }

  predicate Unchanged(a: Artifact, jobs: seq<Job>) {
    a.kind == Config && HasUnchanged(jobs, a.kind, a.sourceIdentity, a.size, a.sha256)
  }

  /* ---------- What a collection is ---------- */

  /** A source is taken up: it is selected and the first with its bytes. */
  ghost predicate First(sources: seq<Artifact>, selection: set<Kind>, i: int) {
    && 0 <= i < |sources| && sources[i].kind in selection
    && forall j | 0 <= j < i && sources[j].kind in selection :: Print(sources[j]) != Print(sources[i])
  }

  /** Two different contents claim one archive path. */
  ghost predicate Collides(sources: seq<Artifact>, selection: set<Kind>, i: int, j: int) {
    i < j && First(sources, selection, i) && First(sources, selection, j) && sources[i].archivePath == sources[j].archivePath
  }

  /** What the loop over the first `n` sources leaves, in their order. */
  function Collected(sources: seq<Artifact>, selection: set<Kind>, jobs: seq<Job>, n: nat): seq<Artifact>
    requires n <= |sources|
  {
    if n == 0 then []
    else
      var before := Collected(sources, selection, jobs, n - 1);
      var a := sources[n - 1];
      if a.kind !in selection || Seen(sources, selection, n - 1, Print(a)) || Unchanged(a, jobs) then before else before + [a]
  }

  predicate Seen(sources: seq<Artifact>, selection: set<Kind>, n: nat, fingerprint: Fingerprint)
    requires n <= |sources|
  {
    exists j | 0 <= j < n :: sources[j].kind in selection && Print(sources[j]) == fingerprint
  }

  /** The collection loop of `create_backup`; none when two sources collide. */
  method Collect(sources: seq<Artifact>, selection: set<Kind>, jobs: seq<Job>) returns (r: Option<seq<Artifact>>)
    ensures r.None? <==> exists i, j :: Collides(sources, selection, i, j)
    ensures r.Some? ==> r.value == Collected(sources, selection, jobs, |sources|)
  {
    var collected: seq<Artifact> := [];
    var seenFingerprints: set<Fingerprint> := {};
    var seenArchivePaths: set<string> := {};
    for n := 0 to |sources|
      invariant collected == Collected(sources, selection, jobs, n)
      invariant forall p :: p in seenFingerprints <==> Seen(sources, selection, n, p)
      invariant forall path :: path in seenArchivePaths <==> exists i :: i < n && First(sources, selection, i) && sources[i].archivePath == path
      invariant forall i, j | j < n :: !Collides(sources, selection, i, j)
    {
      var artifact := sources[n];
      if artifact.kind !in selection {
        continue;
      }
      var fingerprint := Print(artifact);
      if fingerprint in seenFingerprints {
        continue;
      }
      assert First(sources, selection, n);
      if artifact.archivePath in seenArchivePaths {
        ghost var i :| i < n && First(sources, selection, i) && sources[i].archivePath == artifact.archivePath;
        assert Collides(sources, selection, i, n);
        return None;
      }
      seenFingerprints := seenFingerprints + {fingerprint};
      seenArchivePaths := seenArchivePaths + {artifact.archivePath};
      if !Unchanged(artifact, jobs) {
        collected := collected + [artifact];
      }
    }
    r := Some(collected);
  }

  /** The collected artifacts are the sources at these places. */
  ghost predicate PickedAt(sources: seq<Artifact>, selection: set<Kind>, jobs: seq<Job>, n: nat, at: seq<int>, collected: seq<Artifact>) {
    && |at| == |collected|
    && (forall k | 0 <= k < |at| :: PickedOne(sources, selection, jobs, n, at[k], collected[k]))
    && (forall k, l | 0 <= k < l < |at| :: at[k] < at[l])
  }

  ghost predicate PickedOne(sources: seq<Artifact>, selection: set<Kind>, jobs: seq<Job>, n: nat, i: int, a: Artifact) {
    First(sources, selection, i) && i < n && sources[i] == a && !Unchanged(a, jobs)
  }

  lemma PickedNext(sources: seq<Artifact>, selection: set<Kind>, jobs: seq<Job>, n: nat, at: seq<int>, collected: seq<Artifact>)
    requires n < |sources| && PickedAt(sources, selection, jobs, n, at, collected)
    requires PickedOne(sources, selection, jobs, n + 1, n, sources[n])
    ensures PickedAt(sources, selection, jobs, n + 1, at + [n], collected + [sources[n]])
  {
    var next, more := at + [n], collected + [sources[n]];
    forall k | 0 <= k < |next| ensures PickedOne(sources, selection, jobs, n + 1, next[k], more[k]) {
      if k < |at| {
        assert PickedOne(sources, selection, jobs, n, at[k], collected[k]);
      }
    }
    forall k, l | 0 <= k < l < |next| ensures next[k] < next[l] {
      assert PickedOne(sources, selection, jobs, n, at[k], collected[k]);
    }
  }

  lemma PickedLater(sources: seq<Artifact>, selection: set<Kind>, jobs: seq<Job>, n: nat, at: seq<int>, collected: seq<Artifact>)
    requires PickedAt(sources, selection, jobs, n, at, collected)
    ensures PickedAt(sources, selection, jobs, n + 1, at, collected)
  {
    forall k | 0 <= k < |at| ensures PickedOne(sources, selection, jobs, n + 1, at[k], collected[k]) {
      assert PickedOne(sources, selection, jobs, n, at[k], collected[k]);
    }
  }

  /** Each collected artifact is the first of its bytes, in the order of the sources. */
  lemma {:induction false} CollectedAreFirst(sources: seq<Artifact>, selection: set<Kind>, jobs: seq<Job>, n: nat) returns (at: seq<int>)
    requires n <= |sources|
    ensures PickedAt(sources, selection, jobs, n, at, Collected(sources, selection, jobs, n))
  {
    if n == 0 {
      at := [];
    } else {
      at := CollectedAreFirst(sources, selection, jobs, n - 1);
      var a, before := sources[n - 1], Collected(sources, selection, jobs, n - 1);
      if a.kind !in selection || Seen(sources, selection, n - 1, Print(a)) || Unchanged(a, jobs) {
        PickedLater(sources, selection, jobs, n - 1, at, before);
      } else {
        assert First(sources, selection, n - 1);
        PickedNext(sources, selection, jobs, n - 1, at, before);
        at := at + [n - 1];
      }
    }
  }

  /** Collected artifacts have pairwise distinct bytes and pairwise distinct archive paths. */
  lemma CollectedAreDistinct(sources: seq<Artifact>, selection: set<Kind>, jobs: seq<Job>)
    requires forall i, j :: !Collides(sources, selection, i, j)
    ensures var c := Collected(sources, selection, jobs, |sources|);
            forall k, l | 0 <= k < l < |c| :: Print(c[k]) != Print(c[l]) && c[k].archivePath != c[l].archivePath
  {
    var at := CollectedAreFirst(sources, selection, jobs, |sources|);
    var c := Collected(sources, selection, jobs, |sources|);
    forall k, l | 0 <= k < l < |c| ensures Print(c[k]) != Print(c[l]) && c[k].archivePath != c[l].archivePath {
      assert PickedOne(sources, selection, jobs, |sources|, at[k], c[k]);
      assert PickedOne(sources, selection, jobs, |sources|, at[l], c[l]);
      assert !Collides(sources, selection, at[k], at[l]);
    }
  }

  /** Every selected source's bytes are in the collection or in a successful job. */
  lemma {:induction false} NothingIsMissed(sources: seq<Artifact>, selection: set<Kind>, jobs: seq<Job>, n: nat, i: nat)
    requires i < n <= |sources| && sources[i].kind in selection
    ensures || (exists a :: a in Collected(sources, selection, jobs, n) && Print(a) == Print(sources[i]))
            || (exists j, b :: j in jobs && j.status == Success && b in j.artifacts
                               && Fingerprint(b.kind, b.size, b.sha256) == Print(sources[i]))
  {
    var a := sources[n - 1];
    var before := Collected(sources, selection, jobs, n - 1);
    if i < n - 1 {
      NothingIsMissed(sources, selection, jobs, n - 1, i);
      assert forall b | b in before :: b in Collected(sources, selection, jobs, n);
    } else if Seen(sources, selection, n - 1, Print(a)) {
      var k :| 0 <= k < n - 1 && sources[k].kind in selection && Print(sources[k]) == Print(a);
      NothingIsMissed(sources, selection, jobs, n - 1, k);
      assert forall b | b in before :: b in Collected(sources, selection, jobs, n);
    } else if Unchanged(a, jobs) {
      var j, b :| j in jobs && j.status == Success && b in j.artifacts && b.kind == a.kind
                  && b.sourceIdentity == a.sourceIdentity && b.size == a.size && b.sha256 == a.sha256;
      assert Fingerprint(b.kind, b.size, b.sha256) == Print(sources[i]);
    } else {
      assert Collected(sources, selection, jobs, n)[|before|] == a;
    }
  }

  /* ---------- The manifest ---------- */

  /** Artifacts of selected categories at distinct archive paths. */
  predicate Fit(selection: set<Kind>, artifacts: seq<Artifact>) {
    && (forall i, j | 0 <= i < j < |artifacts| :: artifacts[i].archivePath != artifacts[j].archivePath)
    && (forall i | 0 <= i < |artifacts| :: artifacts[i].kind in selection)
  }

  /** What a manifest demands of its selection and its artifacts. */
  predicate ManifestAccepts(selection: set<Kind>, artifacts: seq<Artifact>) {
    selection != {} && |artifacts| <= MAX_MANIFEST_ARTIFACTS && Fit(selection, artifacts)
  }

  /** The selection without the categories that collected nothing. */
  function EffectiveSelection(selection: set<Kind>, collected: seq<Artifact>): set<Kind> {
    set kind | kind in selection && exists k | 0 <= k < |collected| :: collected[k].kind == kind
  }

  /** The recomputed selection is accepted unless there are too many artifacts. */
  lemma EffectiveSelectionIsAccepted(sources: seq<Artifact>, selection: set<Kind>, jobs: seq<Job>)
    requires forall i, j :: !Collides(sources, selection, i, j)
    requires Collected(sources, selection, jobs, |sources|) != []
    ensures var c := Collected(sources, selection, jobs, |sources|);
            ManifestAccepts(EffectiveSelection(selection, c), c) <==> |c| <= MAX_MANIFEST_ARTIFACTS
  {
    CollectedAreDistinct(sources, selection, jobs);
    var at := CollectedAreFirst(sources, selection, jobs, |sources|);
    var c := Collected(sources, selection, jobs, |sources|);
    forall k | 0 <= k < |c| ensures c[k].kind in selection {
      assert PickedOne(sources, selection, jobs, |sources|, at[k], c[k]);
    }
    assert c[0].kind in EffectiveSelection(selection, c);
  }
}
