/** Rotating the active log when any call may fail. */
module LogRotation {
  import opened FaultyDirectory
  import ActiveLog

  /** The first slot from `k` on whose name is free, or one past the last. */
  ghost function FirstFreeFrom(fs: FS, stem: string, k: nat): (r: nat)
    requires k <= ActiveLog.MAX_LOG_ROTATION_CANDIDATES + 1
    ensures k <= r <= ActiveLog.MAX_LOG_ROTATION_CANDIDATES + 1
    ensures r <= ActiveLog.MAX_LOG_ROTATION_CANDIDATES ==> File(ActiveLog.SlotName(stem, r)) !in fs.names
    ensures forall j | k <= j < r :: File(ActiveLog.SlotName(stem, j)) in fs.names
    decreases ActiveLog.MAX_LOG_ROTATION_CANDIDATES + 1 - k
  {
    if k <= ActiveLog.MAX_LOG_ROTATION_CANDIDATES && File(ActiveLog.SlotName(stem, k)) in fs.names then FirstFreeFrom(fs, stem, k + 1)
    else k
  }

  class Rotation {
    const dir: Directory
    const path: Name                // the active log
    const slotName: nat -> Name     // the numbered names it can rotate into
    const size: Content -> nat
    ghost const entry: FS
    ghost const start: nat
    ghost const free: nat           // the number of the first free slot, or one past the last

    constructor (dir: Directory, stem: string, size: Content -> nat)
      requires dir.Valid()
      ensures this.dir == dir && this.size == size && entry == dir.fs && start == |dir.history|
      ensures path == File(ActiveLog.ActiveName(stem)) && forall k: nat :: slotName(k) == File(ActiveLog.SlotName(stem, k))
      ensures FreeIsFirst() && NamesDiffer()
    {
      this.dir, this.size := dir, size;
      path, slotName := File(ActiveLog.ActiveName(stem)), (k: nat) => File(ActiveLog.SlotName(stem, k));
      entry, start := dir.fs, |dir.history|;
      free := FirstFreeFrom(dir.fs, stem, 1);
      new;
      forall k: nat ensures slotName(k) != path {
        ActiveLog.SlotNamesDiffer(stem, k, 0);
      }
    }

    ghost predicate NamesDiffer() {
      path.File? && forall k: nat :: slotName(k).File? && slotName(k) != path
    }

    ghost predicate HasActive() {
      WellFormed(entry) && path in entry.names && NamesDiffer()
    }

    ghost predicate FreeIsFirst() {
      && 1 <= free <= ActiveLog.MAX_LOG_ROTATION_CANDIDATES + 1 && (HasFreeSlot() ==> slotName(free) !in entry.names)
      && forall j | 1 <= j < free :: slotName(j) in entry.names
    }

    ghost predicate HasFreeSlot() {
      free <= ActiveLog.MAX_LOG_ROTATION_CANDIDATES
    }

    ghost predicate IsFreeSlot(n: Name) {
      HasFreeSlot() && n == slotName(free)
    }

    /** No bytes change, every other entry stays as it was, and the log keeps a name: its own,
        the first free slot, or one that claims it. */
    ghost predicate Preserved(fs: FS)
      requires HasActive()
    {
      && WellFormed(fs) && SameData(entry, fs)
      && (forall n | n in entry.names && n != path :: Bound(fs, n, entry.names[n]))
      && (forall n | n in fs.names && !(n in entry.names && n != path) ::
            fs.names[n] == entry.names[path] && (n == path || IsFreeSlot(n) || (n.Cleanup? && n.of == path)))
      && (exists n :: Bound(fs, n, entry.names[path]))
    }

    /** At every instant of the rotation. */
    ghost predicate AllPreserved(history: seq<FS>)
      requires HasActive()
    {
      start <= |history| && forall k | start <= k < |history| :: Preserved(history[k])
    }

    ghost predicate Sound()
      reads dir`fs, dir`history
    {
      HasActive() && dir.Valid() && Preserved(dir.fs) && AllPreserved(dir.history)
    }

    lemma PreservedThroughout(before: seq<FS>)
      requires HasActive() && AllPreserved(before) && before <= dir.history
      requires forall k | |before| <= k < |dir.history| :: Preserved(dir.history[k])
      ensures AllPreserved(dir.history)
    {
    }

    /** The log has moved to the first free slot. */
    ghost predicate Moved(fs: FS)
      requires HasActive()
    {
      && HasFreeSlot() && fs.names == (entry.names - {path})[slotName(free) := entry.names[path]]
      && entry.names[path] in fs.inodes && fs.inodes[entry.names[path]].nlink == 1
    }

    ghost predicate Due(force: bool)
      requires HasActive()
    {
      force || size(entry.inodes[entry.names[path]].data) >= ActiveLog.MAX_DAILY_LOG_BYTES
    }

    /** A link count other than one: the handler neither writes to such a file nor rotates it. */
    ghost predicate Shared(fs: FS) {
      path in fs.names && fs.names[path] in fs.inodes && fs.inodes[fs.names[path]].nlink != 1
    }

    /* ---------- Which schedules leave the log with two names ---------- */

    ghost predicate CheckPasses(call: nat, linked: FS) {
      dir.Works(call, linked) && dir.Works(call + 1, linked) && dir.Works(call + 2, linked)
    }

    ghost function CheckEnds(call: nat, linked: FS): nat {
      if !dir.Works(call, linked) then call + 1 else if !dir.Works(call + 1, linked) then call + 2 else call + 3
    }

    /** The claimed name cannot be removed and is put back. */
    ghost predicate PutsBack(call: nat, claimed: FS) {
      if dir.Works(call, claimed) then !dir.Takes(call + 1, claimed) && dir.Works(call + 2, claimed) && dir.Takes(call + 3, claimed)
      else dir.Works(call + 1, claimed) && dir.Takes(call + 2, claimed)
    }

    /** The log's own name is never claimed, or is claimed and put back. */
    ghost predicate KeepsName(call: nat, linked: FS)
      requires path in linked.names && linked.names[path] in linked.inodes
    {
      var at := call + dir.ClaimTries(linked, path, call) + 1;
      || at > call + CLAIM_ATTEMPTS
      || !dir.Takes(at, linked)
      || (dir.Works(at, linked) && PutsBack(at + 1, ClaimedBy(at, linked)))
    }

    /** Once linked: the check fails and the new link cannot be withdrawn, or it passes and the
        log's own name stays or comes back. */
    ghost predicate KeepsBoth(call: nat, linked: FS)
      requires path in linked.names && linked.names[path] in linked.inodes
    {
      if CheckPasses(call, linked) then KeepsName(call + 3, linked)
      else var end := CheckEnds(call, linked); !dir.Works(end, linked) || !dir.Takes(end + 1, linked)
    }

    /** The link itself reports an error after its effect, or is made and kept beside the old name. */
    ghost predicate LinksForGood(call: nat)
      requires HasActive()
    {
      !Shared(entry) && dir.Works(call, entry) && KeepsLinked(call + 1)
    }

    ghost predicate KeepsLinked(call: nat)
      requires HasActive()
    {
      if dir.Works(call, entry) then KeepsBoth(call + 1, Linked(entry, path, slotName(free))) else dir.Takes(call, entry)
    }

    lemma FailsEarly(force: bool, call: nat, bad: nat)
      requires HasActive() && call <= bad < call + 2 + free && !dir.Works(bad, entry)
      ensures !EndsWithTwoNames(force, call)
    {
    }

    lemma ReachesSlot(force: bool, call: nat)
      requires HasActive() && Due(force) && HasFreeSlot() && forall j: nat | call <= j < call + 2 + free :: dir.Works(j, entry)
      ensures EndsWithTwoNames(force, call) <==> LinksForGood(call + 2 + free)
    {
    }

    /** The schedules that leave the log with two names, exactly. */
    ghost predicate EndsWithTwoNames(force: bool, call: nat)
      requires HasActive()
    {
      && Due(force) && HasFreeSlot()
      && (forall j: nat | call <= j < call + 2 + free :: dir.Works(j, entry)) && LinksForGood(call + 2 + free)
    }

    ghost predicate TwoNames(fs: FS) {
      path in fs.names && HasFreeSlot() && slotName(free) in fs.names
    }

    lemma AffectingKeeps(fs: FS, gs: FS, slot: Name)
      requires HasActive() && Preserved(fs) && slot != path && Bound(fs, slot, entry.names[path]) && Bound(fs, path, entry.names[path])
      requires OnlyAffects(fs, gs, path)
      ensures Preserved(gs)
    {
      assert Bound(gs, slot, entry.names[path]);
    }

    lemma LinkingKeeps(k: nat)
      requires HasActive() && k == free && HasFreeSlot() && slotName(k) !in entry.names
      ensures Preserved(Linked(entry, path, slotName(k))) && Preserved(entry)
      ensures Unlinked(Linked(entry, path, slotName(k)), slotName(k)).names == entry.names
      ensures Preserved(Unlinked(Linked(entry, path, slotName(k)), slotName(k)))
      ensures Linked(entry, path, slotName(k)).names - {path} == (entry.names - {path})[slotName(k) := entry.names[path]]
    {
      var linked := Linked(entry, path, slotName(k));
      assert Bound(linked, path, entry.names[path]) && Bound(entry, path, entry.names[path]);
      assert Bound(Unlinked(linked, slotName(k)), path, entry.names[path]);
      assert (linked.names - {slotName(k)}) == entry.names;
    }

    lemma LinkedIsPreserved(k: nat)
      requires HasActive() && (slotName(k) in entry.names || (k == free && HasFreeSlot()))
      ensures Preserved(entry) && (slotName(k) !in entry.names ==> Preserved(Linked(entry, path, slotName(k))))
      ensures slotName(k) !in entry.names && StatOf(entry, path).nlink == 1 ==> Shared(Linked(entry, path, slotName(k)))
    {
      assert Bound(entry, path, entry.names[path]);
      if slotName(k) !in entry.names {
        LinkingKeeps(k);
      }
    }

    /** `_assert_regular_unlinked_file`. */
    method StatAlone() returns (r: Result<Stat>)
      requires dir.Valid()
      modifies dir`calls
      ensures r.Ok? ==> path in dir.fs.names && r.value == StatOf(dir.fs, path) && r.value.nlink == 1
      ensures r.Ok? <==> dir.Works(old(dir.calls), dir.fs) && path in dir.fs.names && StatOf(dir.fs, path).nlink == 1
      ensures dir.calls == old(dir.calls) + 1
    {
      r := dir.Lstat(path);
      if r.Err? || r.value.nlink != 1 {
        r := Err(CheckFailed);
      }
    }

    /** The log is synced and still the same file, twice over. */
    method CheckLinked(expected: Stat) returns (r: Result<()>)
      requires dir.Valid()
      modifies dir`calls
      ensures Bound(dir.fs, path, expected.ino) ==>
                (r.Ok? <==> CheckPasses(old(dir.calls), dir.fs)) && dir.calls == CheckEnds(old(dir.calls), dir.fs)
    {
      r := dir.Fsync();
      if r.Err? {
        return;
      }
      for attempt := 0 to 2
        invariant dir.calls == old(dir.calls) + 1 + attempt && dir.Works(old(dir.calls), dir.fs)
        invariant attempt > 0 ==> dir.Works(old(dir.calls) + 1, dir.fs)
        invariant attempt > 1 ==> dir.Works(old(dir.calls) + 2, dir.fs)
      {
        var current := dir.Lstat(path);
        if current.Err? {
          return Err(current.error);
        }
        if current.value.ino != expected.ino {
          return Err(CheckFailed);
        }
      }
      r := Ok(());
    }

    /** Takes the new link back, if it can be seen to be the log's. */
    method WithdrawLink(slot: Name, expected: Stat)
      requires dir.Valid()
      modifies dir
      ensures dir.Valid() && old(dir.history) <= dir.history
      ensures dir.fs == old(dir.fs) || (Bound(old(dir.fs), slot, expected.ino) && dir.fs == Unlinked(old(dir.fs), slot))
      ensures forall k | |old(dir.history)| <= k < |dir.history| :: dir.history[k] == dir.fs
      ensures Bound(old(dir.fs), slot, expected.ino) ==>
                (slot !in dir.fs.names <==> dir.Works(old(dir.calls), old(dir.fs)) && dir.Takes(old(dir.calls) + 1, old(dir.fs)))
    {
      var stat := dir.Lstat(slot);
      if stat.Ok? && stat.value.ino == expected.ino {
        var unlinked := dir.Unlink(slot);
        if unlinked.Ok? {
          var _ := dir.Fsync();
        }
      }
    }

    /** Unlinks the claimed name; a failure puts the log's own name back if it can. */
    method RemoveClaimed(c: Name, expected: Stat) returns (r: Result<()>)
      requires dir.Valid() && path !in dir.fs.names && c in dir.fs.names && c != path
      modifies dir
      ensures dir.Valid() && old(dir.history) <= dir.history && MovesBack(old(dir.fs), dir.fs, path, c)
      ensures forall k | |old(dir.history)| <= k < |dir.history| :: MovesBack(old(dir.fs), dir.history[k], path, c)
      ensures r.Ok? ==> dir.fs == Unlinked(old(dir.fs), c)
      ensures dir.FaultFree() && Bound(old(dir.fs), c, expected.ino) ==> r.Ok?
      ensures Bound(old(dir.fs), c, expected.ino) ==> (path in dir.fs.names <==> PutsBack(old(dir.calls), old(dir.fs)))
    {
      r := TryRemove(c, expected);
      if r.Err? {
        RestoreName(c);
      }
    }

    method TryRemove(c: Name, expected: Stat) returns (r: Result<()>)
      requires dir.Valid() && path !in dir.fs.names && c in dir.fs.names
      modifies dir
      ensures dir.Valid() && old(dir.history) <= dir.history && forall k | |old(dir.history)| <= k < |dir.history| :: dir.history[k] == dir.fs
      ensures dir.fs == old(dir.fs) || dir.fs == Unlinked(old(dir.fs), c)
      ensures r.Ok? ==> dir.fs == Unlinked(old(dir.fs), c)
      ensures Bound(old(dir.fs), c, expected.ino) ==>
                (c in dir.fs.names <==> !(dir.Works(old(dir.calls), old(dir.fs)) && dir.Takes(old(dir.calls) + 1, old(dir.fs))))
      ensures Bound(old(dir.fs), c, expected.ino) && c in dir.fs.names ==>
                r.Err? && dir.calls == if dir.Works(old(dir.calls), old(dir.fs)) then old(dir.calls) + 2 else old(dir.calls) + 1
      ensures dir.FaultFree() && Bound(old(dir.fs), c, expected.ino) ==> r.Ok?
    {
      var stat := dir.Lstat(c);
      if stat.Err? {
        return Err(stat.error);
      }
      if !Matches(stat.value, expected, false) {
        return Err(CheckFailed);
      }
      r := dir.Unlink(c);
      if r.Ok? {
        r := dir.Fsync();
      }
    }

    method RestoreName(c: Name)
      requires dir.Valid() && path !in dir.fs.names
      modifies dir
      ensures dir.Valid() && old(dir.history) <= dir.history && forall k | |old(dir.history)| <= k < |dir.history| :: dir.history[k] == dir.fs
      ensures dir.fs == old(dir.fs) || (c in old(dir.fs).names && dir.fs == Renamed(old(dir.fs), c, path))
      ensures path in dir.fs.names <==>
                c in old(dir.fs).names && dir.Works(old(dir.calls), old(dir.fs)) && dir.Takes(old(dir.calls) + 1, old(dir.fs))
    {
      var left := dir.Lstat(c);
      if left.Ok? {
        var restored := dir.RenameWithoutReplacing(c, path);
        if restored.Ok? {
          var _ := dir.Fsync();
        }
      }
    }

    /** The directory once the log's own name is claimed by a call. */
    ghost function ClaimedBy(call: nat, fs: FS): FS
      requires call > 0 && path in fs.names && fs.names[path] in fs.inodes
    {
      Renamed(fs, path, dir.ClaimName(path, call - 1))
    }

    method ClaimName(ghost slot: Name) returns (claim: Result<Name>, ghost at: nat)
      requires Sound() && slot != path
      requires Bound(dir.fs, slot, entry.names[path]) && Bound(dir.fs, path, entry.names[path])
      modifies dir
      ensures Sound() && slot in dir.fs.names && at == old(dir.calls) + dir.ClaimTries(old(dir.fs), path, old(dir.calls)) + 1
      ensures claim.Ok? <==> at <= old(dir.calls) + CLAIM_ATTEMPTS && dir.Works(at, old(dir.fs))
      ensures path in dir.fs.names <==> at > old(dir.calls) + CLAIM_ATTEMPTS || !dir.Takes(at, old(dir.fs))
      ensures path in dir.fs.names ==> dir.fs == old(dir.fs)
      ensures claim.Ok? ==> dir.calls == at + 1 && dir.fs == Renamed(old(dir.fs), path, claim.value)
      ensures claim.Ok? ==> claim.value == dir.ClaimName(path, at - 1) && claim.value !in old(dir.fs).names
      ensures dir.FaultFree() && Unclaimed(old(dir.fs), path) ==> claim.Ok?
    {
      ghost var was, before := dir.fs, dir.history;
      claim, at := TryName();
      assert AllPreserved(before);
      assert Preserved(was);
      assert dir.history[..|before|] == before;
      assert dir.Since(|before|, was, path);
      assert before[|before| - 1] == was;
      KeptSince(was, before, slot);
      assert slot in dir.fs.names;
    }

    /** What the claim came to: the call `at` met a free cleanup name, or none was found. */
    ghost predicate TriedAt(call: nat, at: nat, before: FS, claim: Result<Name>)
      requires path in before.names && before.names[path] in before.inodes
      reads dir`calls, dir`fs
    {
      if at > call + CLAIM_ATTEMPTS then claim.Err? && dir.fs == before
      else
        && at > 0 && dir.calls == at + 1 && dir.ClaimName(path, at - 1) !in before.names
        && (claim.Ok? <==> dir.Works(at, before)) && (claim.Ok? ==> claim.value == dir.ClaimName(path, at - 1))
        && dir.fs == if dir.Takes(at, before) then Renamed(before, path, dir.ClaimName(path, at - 1)) else before
    }

    method TryName() returns (claim: Result<Name>, ghost at: nat)
      requires dir.Valid() && path in dir.fs.names
      modifies dir
      ensures dir.Valid() && |dir.history| >= |old(dir.history)| && dir.Since(|old(dir.history)|, old(dir.fs), path)
      ensures dir.history[..|old(dir.history)|] == old(dir.history)
      ensures at == old(dir.calls) + dir.ClaimTries(old(dir.fs), path, old(dir.calls)) + 1
      ensures TriedAt(old(dir.calls), at, old(dir.fs), claim)
      ensures dir.FaultFree() && Unclaimed(old(dir.fs), path) ==> claim.Ok?
    {
      ghost var was, call := dir.fs, dir.calls;
      ghost var tries;
      claim, tries := dir.Claim(path);
      at := call + tries + 1;
      assert dir.FreeAfter(was, path, call, tries);
      dir.ClaimTriesAre(was, path, call, tries);
    }

    /** Claims the log's own name and removes it; the slot keeps the file. */
    method ReleaseName(slot: Name, expected: Stat) returns (r: Result<()>)
      requires Sound() && slot != path
      requires Bound(dir.fs, slot, entry.names[path]) && Bound(dir.fs, path, entry.names[path]) && expected.ino == entry.names[path]
      modifies dir
      ensures Sound()
      ensures r.Ok? ==> dir.fs.names == old(dir.fs).names - {path}
      ensures r.Ok? ==> dir.fs.inodes[expected.ino].nlink == Less(old(dir.fs).inodes[expected.ino].nlink)
      ensures path in dir.fs.names
              ==> dir.fs.inodes[expected.ino].nlink == old(dir.fs).inodes[expected.ino].nlink
      ensures dir.FaultFree() && Unclaimed(old(dir.fs), path) ==> r.Ok?
      ensures path in dir.fs.names <==> KeepsName(old(dir.calls), old(dir.fs))
      ensures slot in dir.fs.names
    {
      ghost var was := dir.fs;
      var claim, at := ClaimName(slot);
      ghost var claimed := dir.fs;
      if claim.Err? {
        ReleaseEnds(old(dir.calls), was, at, claim.Ok?, claimed, path in dir.fs.names);
        return Err(claim.error);
      }
      r := RemoveName(claim.value, expected, was, slot);
      ReleaseEnds(old(dir.calls), was, at, claim.Ok?, claimed, path in dir.fs.names);
    }

    method RemoveName(c: Name, expected: Stat, ghost was: FS, ghost slot: Name) returns (r: Result<()>)
      requires Sound() && Preserved(was) && slot != path && c.Cleanup? && c.of == path && c !in was.names
      requires Bound(was, slot, entry.names[path]) && Bound(was, path, entry.names[path]) && expected.ino == entry.names[path]
      requires dir.fs == Renamed(was, path, c)
      modifies dir
      ensures Sound() && slot in dir.fs.names
      ensures r.Ok? ==> dir.fs.names == was.names - {path}
      ensures r.Ok? ==> dir.fs.inodes[expected.ino].nlink == Less(was.inodes[expected.ino].nlink)
      ensures path in dir.fs.names ==> dir.fs.inodes[expected.ino].nlink == was.inodes[expected.ino].nlink
      ensures path in dir.fs.names <==> PutsBack(old(dir.calls), old(dir.fs))
      ensures dir.FaultFree() ==> r.Ok?
    {
      ghost var mark := dir.history;
      r := RemoveClaimed(c, expected);
      forall k | |mark| <= k < |dir.history| ensures Preserved(dir.history[k]) {
        MovedBackKeeps(was, dir.history[k], c, slot);
      }
      MovedBackKeeps(was, dir.fs, c, slot);
      PreservedThroughout(mark);
    }

    lemma ReleaseEnds(call: nat, was: FS, at: nat, claimed: bool, fs: FS, keeps: bool)
      requires path in was.names && was.names[path] in was.inodes && at == call + dir.ClaimTries(was, path, call) + 1
      requires claimed <==> at <= call + CLAIM_ATTEMPTS && dir.Works(at, was)
      requires if claimed then fs == Renamed(was, path, dir.ClaimName(path, at - 1)) && (keeps <==> PutsBack(at + 1, fs))
               else keeps <==> at > call + CLAIM_ATTEMPTS || !dir.Takes(at, was)
      ensures keeps <==> KeepsName(call, was)
    {
      assert !claimed ==> at > call + CLAIM_ATTEMPTS || !dir.Works(at, was);
      assert claimed ==> fs == ClaimedBy(at, was);
    }

    lemma MovedBackKeeps(was: FS, gs: FS, c: Name, slot: Name)
      requires HasActive() && Preserved(was) && slot != path
      requires Bound(was, slot, entry.names[path]) && Bound(was, path, entry.names[path])
      requires c !in was.names && c.Cleanup? && c.of == path && MovesBack(Renamed(was, path, c), gs, path, c)
      ensures Preserved(gs)
      ensures gs == Unlinked(Renamed(was, path, c), c) ==> gs.names == was.names - {path}
      ensures gs == Unlinked(Renamed(was, path, c), c) ==>
                gs.inodes[entry.names[path]].nlink == Less(was.inodes[entry.names[path]].nlink)
      ensures path in gs.names ==> gs.inodes[entry.names[path]].nlink == was.inodes[entry.names[path]].nlink
    {
      MovedBackAffectsOnly(was, gs, path, c);
      AffectingKeeps(was, gs, slot);
    }

    lemma KeptSince(was: FS, before: seq<FS>, slot: Name)
      requires HasActive() && Preserved(was) && slot != path && dir.Valid() && AllPreserved(before)
      requires |before| <= |dir.history| && dir.history[..|before|] == before && dir.Since(|before|, was, path)
      requires |before| > 0 && before[|before| - 1] == was
      requires Bound(was, slot, entry.names[path]) && Bound(was, path, entry.names[path])
      ensures Sound()
    {
      forall k | |before| <= k < |dir.history| ensures Preserved(dir.history[k]) {
        AffectingKeeps(was, dir.history[k], slot);
      }
      PreservedThroughout(before);
    }

    /** Moves the log to a slot; false when the slot turns out to be taken. */
    method RotateInto(k: nat) returns (r: Result<bool>)
      requires Sound() && FreeIsFirst() && dir.fs == entry && (slotName(k) in entry.names || (k == free && HasFreeSlot()))
      modifies dir
      ensures Sound()
      ensures r == Ok(false) ==> slotName(k) in entry.names && dir.fs == entry
      ensures r == Ok(true) ==> Moved(dir.fs)
      ensures Shared(entry) ==> r.Err? && dir.fs == entry
      ensures r.Err? && TwoNames(dir.fs) ==> Shared(dir.fs)
      ensures k == free && HasFreeSlot() && slotName(k) !in entry.names ==> (TwoNames(dir.fs) <==> LinksForGood(old(dir.calls)))
      ensures dir.FaultFree() && Unclaimed(entry, path) && slotName(k) !in entry.names && !Shared(entry) ==> r == Ok(true)
    {
      var expected := StatAlone();
      if expected.Err? {
        return Err(expected.error);
      }
      r := LinkAndMove(k, expected.value);
    }

    method LinkAndMove(k: nat, expected: Stat) returns (r: Result<bool>)
      requires Sound() && FreeIsFirst() && dir.fs == entry && (slotName(k) in entry.names || (k == free && HasFreeSlot()))
      requires expected == StatOf(entry, path) && expected.nlink == 1
      modifies dir
      ensures Sound()
      ensures r == Ok(false) ==> slotName(k) in entry.names && dir.fs == entry
      ensures r == Ok(true) ==> Moved(dir.fs)
      ensures r.Err? && TwoNames(dir.fs) ==> Shared(dir.fs)
      ensures slotName(k) !in entry.names ==> (TwoNames(dir.fs) <==> KeepsLinked(old(dir.calls)))
      ensures dir.FaultFree() && Unclaimed(entry, path) && slotName(k) !in entry.names ==> r == Ok(true)
    {
      var linked := TryLink(k, expected);
      if linked.Err? {
        r := if linked.error == Exists then Ok(false) else Err(linked.error);
        return;
      }
      var moved := LeaveOldName(k, expected);
      r := if moved.Ok? then Ok(true) else Err(moved.error);
    }

    /** Gives the log its second name. */
    method TryLink(k: nat, expected: Stat) returns (linked: Result<()>)
      requires Sound() && FreeIsFirst() && dir.fs == entry && (slotName(k) in entry.names || (k == free && HasFreeSlot()))
      requires expected == StatOf(entry, path) && expected.nlink == 1
      modifies dir
      ensures Sound()
      ensures linked == Err(Exists) <==> slotName(k) in entry.names
      ensures linked == Err(Exists) ==> dir.fs == entry && !TwoNames(dir.fs)
      ensures linked.Err? && TwoNames(dir.fs) ==> Shared(dir.fs)
      ensures linked.Ok? <==> slotName(k) !in entry.names && dir.Works(old(dir.calls), entry)
      ensures linked.Ok? ==> dir.fs == Linked(entry, path, slotName(k)) && dir.calls == old(dir.calls) + 1
      ensures linked.Err? && linked != Err(Exists) ==> (TwoNames(dir.fs) <==> dir.Takes(old(dir.calls), entry))
    {
      LinkedIsPreserved(k);
      ghost var before := dir.history;
      linked := dir.Link(path, slotName(k));
      assert Preserved(dir.fs);
      PreservedThroughout(before);
    }

    /** The log has both names; takes its own away, or the new one back. */
    method LeaveOldName(k: nat, expected: Stat) returns (r: Result<()>)
      requires Sound() && k == free && HasFreeSlot() && slotName(k) !in entry.names && dir.fs == Linked(entry, path, slotName(k))
      requires expected == StatOf(entry, path) && expected.nlink == 1
      modifies dir
      ensures Sound()
      ensures r.Ok? ==> Moved(dir.fs)
      ensures r.Err? && TwoNames(dir.fs) ==> Shared(dir.fs)
      ensures TwoNames(dir.fs) <==> KeepsBoth(old(dir.calls), old(dir.fs))
      ensures dir.FaultFree() && Unclaimed(entry, path) ==> r.Ok?
    {
      r := CheckLinked(expected);
      if r.Ok? {
        r := LeaveToSlot(k, expected);
      } else {
        TakeBack(k, expected);
      }
    }

    /** The log has both names, and goes back to its own. */
    method TakeBack(k: nat, expected: Stat)
      requires Sound() && k == free && HasFreeSlot() && slotName(k) !in entry.names && dir.fs == Linked(entry, path, slotName(k))
      requires expected == StatOf(entry, path) && expected.nlink == 1
      modifies dir
      ensures Sound() && (TwoNames(dir.fs) ==> Shared(dir.fs))
      ensures TwoNames(dir.fs) <==> !dir.Works(old(dir.calls), old(dir.fs)) || !dir.Takes(old(dir.calls) + 1, old(dir.fs))
    {
      LinkingKeeps(k);
      WithdrawLink(slotName(k), expected);
    }

    /** The log has both names, and gives up its own. */
    method LeaveToSlot(k: nat, expected: Stat) returns (r: Result<()>)
      requires Sound() && k == free && HasFreeSlot() && slotName(k) !in entry.names && dir.fs == Linked(entry, path, slotName(k))
      requires expected == StatOf(entry, path) && expected.nlink == 1
      modifies dir
      ensures Sound() && (TwoNames(dir.fs) ==> Shared(dir.fs))
      ensures r.Ok? ==> Moved(dir.fs)
      ensures TwoNames(dir.fs) <==> KeepsName(old(dir.calls), old(dir.fs))
      ensures dir.FaultFree() && Unclaimed(entry, path) ==> r.Ok?
    {
      LinkingKeeps(k);
      r := ReleaseName(slotName(k), expected);
    }

    lemma EntryIsPreserved()
      requires FreeIsFirst()
      ensures HasActive() ==> Preserved(entry)
      ensures !TwoNames(entry)
    {
      assert HasActive() ==> Bound(entry, path, entry.names[path]);
    }

    /** `_rotate_active_if_needed`. */
    method RotateActiveIfNeeded(force: bool) returns (r: Result<()>)
      requires dir.Valid() && dir.fs == entry && start == |dir.history| && FreeIsFirst() && NamesDiffer() && dir.Valid()
      modifies dir
      ensures dir.Valid() && if path in entry.names then Sound() else dir.fs == entry
      ensures r.Ok? ==> if path in entry.names && Due(force) then Moved(dir.fs) else dir.fs == entry
      ensures Shared(entry) ==> r.Err? && dir.fs == entry
      ensures r.Err? && TwoNames(dir.fs) ==> Shared(dir.fs)
      ensures HasActive() ==> (TwoNames(dir.fs) <==> EndsWithTwoNames(force, old(dir.calls)))
      ensures dir.FaultFree() && (path in entry.names ==> Unclaimed(entry, path)) ==>
                (r.Ok? <==> path !in entry.names || (!Shared(entry) && (Due(force) ==> HasFreeSlot())))
    {
      EntryIsPreserved();
      ghost var call := dir.calls;
      var present := dir.Lstat(path);
      if present.Err? {
        if HasActive() {
          FailsEarly(force, call, call);
        }
        return if present.error == Missing then Ok(()) else Err(present.error);
      }
      var stat := StatAlone();
      if stat.Err? {
        if !dir.Works(call + 1, entry) {
          FailsEarly(force, call, call + 1);
        }
        return Err(stat.error);
      }
      if !force && size(dir.fs.inodes[stat.value.ino].data) < ActiveLog.MAX_DAILY_LOG_BYTES {
        return Ok(());
      }
      r := RotateIntoFirstFree(force, call);
    }

    /** Looks for a free slot and moves the log there. */
    method RotateIntoFirstFree(ghost force: bool, ghost call: nat) returns (r: Result<()>)
      requires Sound() && dir.fs == entry && FreeIsFirst() && Due(force) && !Shared(entry) && !TwoNames(entry)
      requires dir.calls == call + 2 && dir.Works(call, entry) && dir.Works(call + 1, entry)
      modifies dir
      ensures Sound()
      ensures r.Ok? ==> Moved(dir.fs)
      ensures r.Err? && TwoNames(dir.fs) ==> Shared(dir.fs)
      ensures TwoNames(dir.fs) <==> EndsWithTwoNames(force, call)
      ensures dir.FaultFree() && Unclaimed(entry, path) ==> (r.Ok? <==> HasFreeSlot())
    {
      for k := 1 to ActiveLog.MAX_LOG_ROTATION_CANDIDATES + 1
        invariant Searching(k, call)
      {
        var moved := TrySlot(k, force, call);
        if moved.Err? {
          return Err(moved.error);
        }
        if moved.value {
          return Ok(());
        }
      }
      r := Err(CheckFailed);
    }

    /** No slot before the `k`-th is free, and every call so far has worked. */
    ghost predicate Searching(k: nat, call: nat)
      reads dir`fs, dir`history, dir`calls
    {
      && Sound() && dir.fs == entry && FreeIsFirst() && 1 <= k <= free && dir.calls == call + 1 + k
      && forall j: nat | call <= j < call + 1 + k :: dir.Works(j, entry)
    }

    /** One slot; false when it is taken. */
    method TrySlot(k: nat, ghost force: bool, ghost call: nat) returns (r: Result<bool>)
      requires Searching(k, call) && k <= ActiveLog.MAX_LOG_ROTATION_CANDIDATES && Due(force) && !Shared(entry) && !TwoNames(entry)
      modifies dir
      ensures Sound()
      ensures r == Ok(false) ==> Searching(k + 1, call)
      ensures r == Ok(true) ==> Moved(dir.fs)
      ensures r.Err? && TwoNames(dir.fs) ==> Shared(dir.fs)
      ensures r != Ok(false) ==> (TwoNames(dir.fs) <==> EndsWithTwoNames(force, call))
      ensures dir.FaultFree() && Unclaimed(entry, path) ==> r.Ok? && (r.value <==> k == free)
    {
      var candidate := dir.Lstat(slotName(k));
      if candidate.Ok? {
        return Ok(false);
      }
      if candidate.error != Missing {
        FailsEarly(force, call, call + 1 + k);
        return Err(candidate.error);
      }
      assert k == free && slotName(k) !in entry.names && dir.calls == call + 2 + free;
      ReachesSlot(force, call);
      assert Sound() && FreeIsFirst();
      r := RotateInto(k);
    }
  }

  /* ---------- A rotation that leaves two names ---------- */

  const EXAMPLE_STEM := "log"
  const EXAMPLE_LOG := File("log.log")
  const EXAMPLE_SLOT := File("log.1.log")

  /** A disk on which nothing works while the log has both names. */
  const STUCK_ON_BOTH: (nat, FS) -> Fault :=
    (call: nat, fs: FS) => if EXAMPLE_LOG in fs.names && EXAMPLE_SLOT in fs.names then Fails(false, false) else NoFault

  function ExampleDirectory(): FS {
    FS(map[EXAMPLE_LOG := 0], map[0 := Inode(Plain("line"), 1, 0)], 0)
  }

  lemma ExampleNames()
    ensures File(ActiveLog.ActiveName(EXAMPLE_STEM)) == EXAMPLE_LOG && File(ActiveLog.SlotName(EXAMPLE_STEM, 1)) == EXAMPLE_SLOT
    ensures EXAMPLE_LOG != EXAMPLE_SLOT
  {
    assert ActiveLog.ActiveName(EXAMPLE_STEM) == "log.log";
    assert ActiveLog.SlotName(EXAMPLE_STEM, 1) == "log.1.log";
    assert |EXAMPLE_LOG.path| < |EXAMPLE_SLOT.path|;
  }

  /** The rotation fails, and the log is left with two names and two links. */
  method TwoNamesExample() returns (dir: Directory, r: Result<()>)
    ensures r.Err? && dir.Valid() && EXAMPLE_LOG in dir.fs.names && EXAMPLE_SLOT in dir.fs.names
    ensures dir.fs.names[EXAMPLE_LOG] == dir.fs.names[EXAMPLE_SLOT] == 0 && 0 in dir.fs.inodes && dir.fs.inodes[0].nlink != 1
  {
    ExampleNames();
    dir := new Directory(ExampleDirectory(), STUCK_ON_BOTH, k => k);
    var rotation := new Rotation(dir, EXAMPLE_STEM, _ => 0);
    assert rotation.free == 1;
    assert rotation.EndsWithTwoNames(true, dir.calls);
    r := rotation.RotateActiveIfNeeded(true);
  }
}
