/** Removing an expected file, optionally after overwriting its bytes.

    The entry is claimed under a fresh cleanup name, checked, wiped if asked and if it
    is the inode's last name, and unlinked; a failure tries to put the entry back. */
module SecureRemoval {
  import opened FaultyDirectory

  /** Only the entry `n` was claimed or removed, and its bytes overwritten at most if that was allowed. */
  ghost predicate Affects(fs: FS, gs: FS, n: Name, wipe: bool) {
    && (forall m | m in fs.names && m != n :: Bound(gs, m, fs.names[m]))
    && (forall m | m in gs.names ::
          || (m in fs.names && fs.names[m] == gs.names[m])
          || (n in fs.names && gs.names[m] == fs.names[n] && m.Cleanup? && m.of == n))
    && (forall i | i in fs.inodes && (n in fs.names ==> i != fs.names[n]) :: i in gs.inodes && gs.inodes[i] == fs.inodes[i])
    && (forall i | i in fs.inodes :: i in gs.inodes && MaybeWiped(fs.inodes[i], gs.inodes[i], wipe))
  }

  /** An inode with another name, or with none, keeps its number of links. */
  ghost predicate KeepsLinks(fs: FS, gs: FS) {
    forall i | i in fs.inodes && fs.inodes[i].nlink != 1 :: i in gs.inodes && gs.inodes[i].nlink == fs.inodes[i].nlink
  }

  /** Bytes are overwritten only when nothing else is linked to them. */
  predicate MaybeWiped(before: Inode, after: Inode, wipe: bool) {
    after.data == before.data || (wipe && before.nlink == 1 && after.data == Wiped)
  }

  /** The claimed entry `c` in all states on the way to its removal or back to `n`. */
  ghost predicate Undoing(fs: FS, gs: FS, n: Name, c: Name, wipe: bool)
    requires c in fs.names && fs.names[c] in fs.inodes
  {
    var ino := fs.names[c];
    && (gs.names == fs.names || gs.names == fs.names - {c} || gs.names == (fs.names - {c})[n := ino])
    && (forall i | i in fs.inodes :: i in gs.inodes && (i != ino ==> gs.inodes[i] == fs.inodes[i]))
    && MaybeWiped(fs.inodes[ino], gs.inodes[ino], wipe)
  }

  lemma UndoingAffects(fs: FS, gs: FS, n: Name, c: Name, wipe: bool)
    requires n in fs.names && fs.names[n] in fs.inodes && c !in fs.names && c.Cleanup? && c.of == n
    requires Undoing(Renamed(fs, n, c), gs, n, c, wipe)
    ensures Affects(fs, gs, n, wipe)
    ensures gs.names == Renamed(fs, n, c).names - {c} ==> n !in gs.names && forall m | m in gs.names :: m in fs.names
  {
  }

  /* ---------- What becomes of an entry, call by call ---------- */

  /** The claimed entry is looked at, its old name is seen to be free, and is taken again. */
  ghost predicate Restores(dir: Directory, call: nat, claimed: FS) {
    dir.Works(call, claimed) && dir.Works(call + 1, claimed) && dir.Takes(call + 2, claimed)
  }

  /** The claimed entry cannot be unlinked, and gets its name back. */
  ghost predicate PutsBack(dir: Directory, call: nat, claimed: FS) {
    if dir.Works(call, claimed) then !dir.Takes(call + 1, claimed) && Restores(dir, call + 2, claimed)
    else Restores(dir, call + 1, claimed)
  }

  /** The call that claims the entry, if a removal that begins with `call` gets so far. */
  ghost function ClaimCall(dir: Directory, call: nat, fs: FS, n: Name): nat {
    call + dir.ClaimTries(fs, n, call + 1) + 2
  }

  ghost function ClaimedBy(dir: Directory, at: nat, fs: FS, n: Name): FS
    requires at > 0 && n in fs.names && fs.names[n] in fs.inodes
  {
    Renamed(fs, n, dir.ClaimName(n, at - 1))
  }

  /** The entry is found, and a cleanup name for it. */
  ghost predicate CanBeClaimed(dir: Directory, call: nat, fs: FS, n: Name) {
    dir.Works(call, fs) && dir.ClaimTries(fs, n, call + 1) < CLAIM_ATTEMPTS
  }

  /** A removal without wiping leaves the entry: it is never claimed, or put back. */
  ghost predicate KeepsEntry(dir: Directory, call: nat, fs: FS, n: Name)
    requires n in fs.names && fs.names[n] in fs.inodes
  {
    var at := ClaimCall(dir, call, fs, n);
    CanBeClaimed(dir, call, fs, n) && dir.Takes(at, fs) ==> dir.Works(at, fs) && PutsBack(dir, at + 1, ClaimedBy(dir, at, fs, n))
  }

  /** A removal without wiping takes a link from the inode. */
  ghost predicate UnlinksEntry(dir: Directory, call: nat, fs: FS, n: Name)
    requires n in fs.names && fs.names[n] in fs.inodes
  {
    var at := ClaimCall(dir, call, fs, n);
    && CanBeClaimed(dir, call, fs, n) && dir.Works(at, fs)
    && dir.Works(at + 1, ClaimedBy(dir, at, fs, n)) && dir.Takes(at + 2, ClaimedBy(dir, at, fs, n))
  }

  /** Overwrites the bytes of an inode that has no other name. */
  method SecureWipe(dir: Directory, c: Name, ghost n: Name, expected: Stat, ghost claimed: FS) returns (r: Result<()>)
    requires dir.Valid() && WellFormed(claimed) && c in claimed.names && dir.fs == claimed
    modifies dir
    ensures dir.Valid() && (dir.history == old(dir.history) + [dir.fs] || (dir.history == old(dir.history) && dir.fs == claimed))
    ensures Undoing(claimed, dir.fs, n, c, true) && dir.fs.names == claimed.names
    ensures KeepsLinks(claimed, dir.fs)
    ensures r.Ok? ==> claimed.inodes[claimed.names[c]].nlink == 1
    ensures r.Ok? ==> dir.fs.inodes[claimed.names[c]].data == Wiped && dir.fs.inodes[claimed.names[c]].nlink == 1
    ensures dir.FaultFree() && Matches(StatOf(claimed, c), expected, false) && StatOf(claimed, c).nlink == 1 ==> r.Ok?
  {
    var stat := dir.Lstat(c);
    if stat.Err? {
      return Err(stat.error);
    }
    if stat.value.nlink != 1 || !Matches(stat.value, expected, false) {
      return Err(CheckFailed);
    }
    r := dir.Write(dir.fs.names[c], Wiped);
  }

  /** Every directory since a point in the history is on the way from the claim. */
  ghost predicate UndoingSince(dir: Directory, from: nat, claimed: FS, n: Name, c: Name, wipe: bool)
    requires c in claimed.names && claimed.names[c] in claimed.inodes
    reads dir
  {
    from <= |dir.history| && forall k | from <= k < |dir.history| :: Undoing(claimed, dir.history[k], n, c, wipe)
  }

  /** What looking at a claimed entry and unlinking it come to. */
  ghost predicate UnlinkedAt(dir: Directory, call: nat, fs: FS, c: Name, after: nat, gs: FS, ok: bool)
    requires c in fs.names && fs.names[c] in fs.inodes
  {
    && (ok <==> dir.Works(call, fs) && dir.Works(call + 1, fs))
    && after == (if dir.Works(call, fs) then call + 2 else call + 1)
    && gs == if dir.Works(call, fs) && dir.Takes(call + 1, fs) then Unlinked(fs, c) else fs
  }

  /** Wipes if asked, then unlinks the claimed entry. */
  method WipeAndUnlink(dir: Directory, ghost n: Name, c: Name, expected: Stat, wipe: bool) returns (r: Result<()>)
    requires dir.Valid() && c in dir.fs.names
    modifies dir
    ensures dir.Valid() && |dir.history| >= |old(dir.history)| && dir.history[..|old(dir.history)|] == old(dir.history)
    ensures UndoingSince(dir, |old(dir.history)|, old(dir.fs), n, c, wipe) && Undoing(old(dir.fs), dir.fs, n, c, wipe)
    ensures dir.fs.names == old(dir.fs).names || dir.fs.names == old(dir.fs).names - {c}
    ensures r.Ok? ==> dir.fs.names == old(dir.fs).names - {c} && Bound(old(dir.fs), c, expected.ino)
    ensures r.Ok? ==> dir.fs.inodes[expected.ino].nlink == Less(old(dir.fs).inodes[expected.ino].nlink)
    ensures wipe ==> KeepsLinks(old(dir.fs), dir.fs)
    ensures !wipe && Bound(old(dir.fs), c, expected.ino) ==> UnlinkedAt(dir, old(dir.calls), old(dir.fs), c, dir.calls, dir.fs, r.Ok?)
    ensures r.Ok? && wipe ==> old(dir.fs).inodes[expected.ino].nlink == 1 && dir.fs.inodes[expected.ino].data == Wiped
    ensures dir.FaultFree() && Matches(StatOf(old(dir.fs), c), expected, false) && (wipe ==> StatOf(old(dir.fs), c).nlink == 1)
            ==> r.Ok?
  {
    var stat := dir.Lstat(c);
    if stat.Err? {
      return Err(stat.error);
    }
    if !Matches(stat.value, expected, false) {
      return Err(CheckFailed);
    }
    if wipe {
      r := WipeThenUnlink(dir, n, c, stat.value);
    } else {
      r := dir.Unlink(c);
    }
  }

  method WipeThenUnlink(dir: Directory, ghost n: Name, c: Name, expected: Stat) returns (r: Result<()>)
    requires dir.Valid() && c in dir.fs.names
    modifies dir
    ensures dir.Valid() && |dir.history| >= |old(dir.history)| && dir.history[..|old(dir.history)|] == old(dir.history)
    ensures UndoingSince(dir, |old(dir.history)|, old(dir.fs), n, c, true) && Undoing(old(dir.fs), dir.fs, n, c, true)
    ensures dir.fs.names == old(dir.fs).names || dir.fs.names == old(dir.fs).names - {c}
    ensures r.Ok? ==> dir.fs.names == old(dir.fs).names - {c}
    ensures r.Ok? ==> dir.fs.inodes[old(dir.fs).names[c]].nlink == Less(old(dir.fs).inodes[old(dir.fs).names[c]].nlink)
    ensures KeepsLinks(old(dir.fs), dir.fs)
    ensures r.Ok? ==> old(dir.fs).inodes[old(dir.fs).names[c]].nlink == 1 && dir.fs.inodes[old(dir.fs).names[c]].data == Wiped
    ensures dir.FaultFree() && Matches(StatOf(old(dir.fs), c), expected, false) && StatOf(old(dir.fs), c).nlink == 1 ==> r.Ok?
  {
    ghost var claimed := dir.fs;
    r := SecureWipe(dir, c, n, expected, claimed);
    if r.Err? {
      return;
    }
    r := dir.Unlink(c);
  }

  /** Puts a claimed entry back if it is still there and the name is free. */
  method RestoreClaim(dir: Directory, n: Name, c: Name, expected: Stat)
    requires dir.Valid() && n != c
    modifies dir
    ensures dir.Valid() && |dir.history| >= |old(dir.history)| && dir.history[..|old(dir.history)|] == old(dir.history)
    ensures forall k | |old(dir.history)| <= k < |dir.history| :: dir.history[k] == dir.fs
    ensures dir.fs == old(dir.fs) || (c in old(dir.fs).names && dir.fs == Renamed(old(dir.fs), c, n))
    ensures KeepsLinks(old(dir.fs), dir.fs)
    ensures c !in old(dir.fs).names ==> dir.fs == old(dir.fs)
    ensures Bound(old(dir.fs), c, expected.ino) && n !in old(dir.fs).names ==>
              (dir.fs != old(dir.fs) <==> Restores(dir, old(dir.calls), old(dir.fs)))
  {
    var current := dir.Lstat(c);
    if current.Err? {
      return;
    }
    var original := dir.Lstat(n);
    if original == Err(Missing) && current.value.ino == expected.ino {
      var _ := dir.RenameWithoutReplacing(c, n);
    }
  }

  /** Removes a claimed entry, or tries to put it back. */
  method RemoveClaimed(dir: Directory, n: Name, c: Name, expected: Stat, wipe: bool) returns (r: Result<()>)
    requires dir.Valid() && c in dir.fs.names && n !in dir.fs.names && n != c
    modifies dir
    ensures dir.Valid() && |dir.history| >= |old(dir.history)| && dir.history[..|old(dir.history)|] == old(dir.history)
    ensures UndoingSince(dir, |old(dir.history)|, old(dir.fs), n, c, wipe) && Undoing(old(dir.fs), dir.fs, n, c, wipe)
    ensures r.Ok? ==> dir.fs.names == old(dir.fs).names - {c} && Bound(old(dir.fs), c, expected.ino)
    ensures r.Ok? ==> dir.fs.inodes[expected.ino].nlink == Less(old(dir.fs).inodes[expected.ino].nlink)
    ensures wipe ==> KeepsLinks(old(dir.fs), dir.fs)
    ensures !wipe && Bound(old(dir.fs), c, expected.ino) ==> (n in dir.fs.names <==> PutsBack(dir, old(dir.calls), old(dir.fs)))
    ensures !wipe && Bound(old(dir.fs), c, expected.ino) ==>
              dir.fs.inodes[expected.ino].nlink
              == if dir.Works(old(dir.calls), old(dir.fs)) && dir.Takes(old(dir.calls) + 1, old(dir.fs))
                 then Less(old(dir.fs).inodes[expected.ino].nlink) else old(dir.fs).inodes[expected.ino].nlink
    ensures r.Ok? && wipe ==> old(dir.fs).inodes[expected.ino].nlink == 1 && dir.fs.inodes[expected.ino].data == Wiped
    ensures dir.FaultFree() && Matches(StatOf(old(dir.fs), c), expected, false) && (wipe ==> StatOf(old(dir.fs), c).nlink == 1)
            ==> r.Ok?
  {
    r := WipeAndUnlink(dir, n, c, expected, wipe);
    if r.Err? {
      RestoreClaim(dir, n, c, expected);
    }
  }

  lemma AffectsSince(history: seq<FS>, from: nat, fs: FS, claimed: FS, n: Name, c: Name, wipe: bool)
    requires n in fs.names && fs.names[n] in fs.inodes && c !in fs.names && c.Cleanup? && c.of == n
    requires claimed == Renamed(fs, n, c)
    requires from <= |history| && forall k | from <= k < |history| :: Undoing(claimed, history[k], n, c, wipe)
    ensures forall k | from <= k < |history| :: Affects(fs, history[k], n, wipe)
  {
    forall k | from <= k < |history| ensures Affects(fs, history[k], n, wipe) {
      UndoingAffects(fs, history[k], n, c, wipe);
    }
  }

  lemma OnlyAffectsAffects(fs: FS, gs: FS, n: Name, wipe: bool)
    requires OnlyAffects(fs, gs, n)
    ensures Affects(fs, gs, n, wipe)
  {
  }

  /** What claiming an entry comes to. */
  ghost predicate ClaimedAt(dir: Directory, call: nat, fs: FS, n: Name, after: nat, gs: FS, ok: bool)
    requires n in fs.names && fs.names[n] in fs.inodes
  {
    var at := ClaimCall(dir, call, fs, n);
    && (ok <==> CanBeClaimed(dir, call, fs, n) && dir.Works(at, fs))
    && (n in gs.names <==> !(CanBeClaimed(dir, call, fs, n) && dir.Takes(at, fs)))
    && (ok ==> after == at + 1 && gs == ClaimedBy(dir, at, fs, n))
    && (!ok ==> fs.names[n] in gs.inodes && gs.inodes[fs.names[n]].nlink == fs.inodes[fs.names[n]].nlink)
  }

  lemma ClaimIsAt(dir: Directory, call: nat, fs: FS, n: Name, tries: nat, after: nat, gs: FS, ok: bool)
    requires n in fs.names && fs.names[n] in fs.inodes && dir.Works(call, fs) && dir.FreeAfter(fs, n, call + 1, tries)
    requires var name := dir.ClaimName(n, call + 1 + tries);
             if tries == CLAIM_ATTEMPTS then !ok && gs == fs
             else && after == call + tries + 3 && (ok <==> dir.Works(call + tries + 2, fs)) && n != name
                  && gs == if dir.Takes(call + tries + 2, fs) then Renamed(fs, n, name) else fs
    ensures ClaimedAt(dir, call, fs, n, after, gs, ok) && KeepsLinks(fs, gs)
  {
    dir.ClaimTriesAre(fs, n, call + 1, tries);
  }

  /** `Directory.Claim` in the terms of this module. */
  method ClaimFound(dir: Directory, n: Name, ghost call: nat, ghost wipe: bool) returns (r: Result<Name>)
    requires dir.Valid() && n in dir.fs.names && dir.calls == call + 1 && dir.Works(call, dir.fs)
    modifies dir
    ensures dir.Valid() && |dir.history| >= |old(dir.history)| && dir.history[..|old(dir.history)|] == old(dir.history)
    ensures forall k | |old(dir.history)| <= k < |dir.history| :: Affects(old(dir.fs), dir.history[k], n, wipe)
    ensures Affects(old(dir.fs), dir.fs, n, wipe) && KeepsLinks(old(dir.fs), dir.fs)
    ensures r.Ok? ==> r.value.Cleanup? && r.value.of == n && r.value !in old(dir.fs).names && dir.fs == Renamed(old(dir.fs), n, r.value)
    ensures dir.CalmAt(old(dir.fs)) && Unclaimed(old(dir.fs), n) ==> r.Ok?
    ensures ClaimedAt(dir, call, old(dir.fs), n, dir.calls, dir.fs, r.Ok?)
  {
    var claim, tries := dir.Claim(n);
    r := claim;
    ClaimIsAt(dir, call, old(dir.fs), n, tries, dir.calls, dir.fs, r.Ok?);
    forall k | |old(dir.history)| <= k < |dir.history| ensures Affects(old(dir.fs), dir.history[k], n, wipe) {
      OnlyAffectsAffects(old(dir.fs), dir.history[k], n, wipe);
    }
    OnlyAffectsAffects(old(dir.fs), dir.fs, n, wipe);
  }

  /** Finds an entry and claims it. */
  method ClaimFile(dir: Directory, n: Name, expected: Stat, ghost wipe: bool) returns (r: Result<Name>)
    requires dir.Valid()
    modifies dir
    ensures dir.Valid() && |dir.history| >= |old(dir.history)| && dir.history[..|old(dir.history)|] == old(dir.history)
    ensures forall k | |old(dir.history)| <= k < |dir.history| :: Affects(old(dir.fs), dir.history[k], n, wipe)
    ensures Affects(old(dir.fs), dir.fs, n, wipe)
    ensures !Bound(old(dir.fs), n, expected.ino) ==> r.Err? && dir.fs == old(dir.fs) && dir.history == old(dir.history)
    ensures r.Ok? ==> n in old(dir.fs).names && r.value.Cleanup? && r.value.of == n && r.value !in old(dir.fs).names
    ensures r.Ok? ==> dir.fs == Renamed(old(dir.fs), n, r.value)
    ensures KeepsLinks(old(dir.fs), dir.fs)
    ensures dir.FaultFree() && Unclaimed(old(dir.fs), n) && Bound(old(dir.fs), n, expected.ino) ==> r.Ok?
    ensures Bound(old(dir.fs), n, expected.ino) ==> ClaimedAt(dir, old(dir.calls), old(dir.fs), n, dir.calls, dir.fs, r.Ok?)
  {
    ghost var call := dir.calls;
    var stat := dir.Lstat(n);
    if stat.Err? {
      return Err(stat.error);
    }
    if stat.value.ino != expected.ino {
      return Err(CheckFailed);
    }
    r := ClaimFound(dir, n, call, wipe);
  }

  /** What a removal without wiping comes to. */
  ghost predicate RemovedAt(dir: Directory, call: nat, fs: FS, n: Name, gs: FS)
    requires n in fs.names && fs.names[n] in fs.inodes
  {
    var ino := fs.names[n];
    && (n in gs.names <==> KeepsEntry(dir, call, fs, n))
    && ino in gs.inodes
    && gs.inodes[ino].nlink == if UnlinksEntry(dir, call, fs, n) then Less(fs.inodes[ino].nlink) else fs.inodes[ino].nlink
  }

  /** `_remove_expected_file`. */
  method RemoveExpectedFile(dir: Directory, n: Name, expected: Stat, wipe: bool) returns (r: Result<()>)
    requires dir.Valid()
    modifies dir
    ensures dir.Valid() && |dir.history| >= |old(dir.history)| && dir.history[..|old(dir.history)|] == old(dir.history)
    ensures forall k | |old(dir.history)| <= k < |dir.history| :: Affects(old(dir.fs), dir.history[k], n, wipe)
    ensures Affects(old(dir.fs), dir.fs, n, wipe)
    ensures !Bound(old(dir.fs), n, expected.ino) ==> r.Err? && dir.fs == old(dir.fs) && dir.history == old(dir.history)
    ensures r.Ok? ==> n !in dir.fs.names && forall m | m in dir.fs.names :: m in old(dir.fs).names
    ensures r.Ok? ==> dir.fs.inodes[expected.ino].nlink == Less(old(dir.fs).inodes[expected.ino].nlink)
    ensures wipe ==> KeepsLinks(old(dir.fs), dir.fs)
    ensures r.Ok? && wipe ==> old(dir.fs).inodes[expected.ino].nlink == 1 && dir.fs.inodes[expected.ino].data == Wiped
    ensures !wipe && Bound(old(dir.fs), n, expected.ino) ==> RemovedAt(dir, old(dir.calls), old(dir.fs), n, dir.fs)
    ensures dir.FaultFree() && Unclaimed(old(dir.fs), n) && Bound(old(dir.fs), n, expected.ino)
              && (wipe ==> StatOf(old(dir.fs), n).nlink == 1)
            ==> r.Ok?
  {
    var claim := ClaimFile(dir, n, expected, wipe);
    if claim.Err? {
      return Err(claim.error);
    }
    ghost var claimed, before := dir.fs, dir.history;
    r := RemoveClaimed(dir, n, claim.value, expected, wipe);
    AffectsSince(dir.history, |before|, old(dir.fs), claimed, n, claim.value, wipe);
    UndoingAffects(old(dir.fs), dir.fs, n, claim.value, wipe);
    forall k | |old(dir.history)| <= k < |before| ensures Affects(old(dir.fs), dir.history[k], n, wipe) {
      assert dir.history[k] == before[k];
    }
  }
}
