/** Compressing a log file into place as a transaction with rollback.

    `GzipFile` replaces the target by the compressed source and only then removes
    the source.  Its flags mirror what the transaction has done, and the rollback
    decides from them, and from what it finds, how to undo it. */
module GzipFile {
  import opened Wrappers
  import opened FaultyDirectory

  class Transaction {
    const dir: Directory
    const source: Name
    const target: Name
    const archiveIno: Ino      // the inode of the temporary archive
    const text: string         // the source's text
    const sourceIno: Ino
    const entry: FS            // the directory when the transaction began
    ghost const start: nat     // the length of the history then
    var tempName: Option<Name>
    var tempStat: Option<Stat>
    var existingStat: Option<Stat>
    var backupName: Option<Name>
    var backupCreated: bool
    var backupStat: Option<Stat>
    var activationStat: Option<Stat>
    var activationAttempted: bool
    var targetRemoved: bool
    var active: bool

    constructor (dir: Directory, source: Name, target: Name, archiveIno: Ino)
      requires dir.Valid() && source.File? && target.File? && source != target
      requires source in dir.fs.names && dir.fs.inodes[dir.fs.names[source]].data.Plain?
      requires archiveIno !in dir.fs.inodes
      requires target in dir.fs.names ==> dir.fs.names[target] != dir.fs.names[source]
      ensures this.dir == dir && this.source == source && this.target == target && this.archiveIno == archiveIno
      ensures entry == dir.fs && sourceIno == dir.fs.names[source]
      ensures text == dir.fs.inodes[sourceIno].data.text
      ensures tempName == None && existingStat == None && !backupCreated && !active
      ensures Begun()
    {
      this.dir, this.source, this.target, this.archiveIno := dir, source, target, archiveIno;
      entry := dir.fs;
      start := |dir.history|;
      sourceIno, text := dir.fs.names[source], dir.fs.inodes[dir.fs.names[source]].data.text;
      tempName, tempStat, existingStat, backupName, backupStat, activationStat := None, None, None, None, None, None;
      backupCreated, activationAttempted, targetRemoved, active := false, false, false, false;
      new;
      assert HadTarget() ==> Bound(dir.fs, target, entry.names[target]);
    }

    /* ---------- Safety at every instant ---------- */

    ghost predicate HadTarget()
    {
      target in entry.names
    }

    /** Some name still leads to the inode. */
    ghost predicate Named(fs: FS, ino: Ino)
    {
      exists n :: Bound(fs, n, ino)
    }

    ghost predicate ArchiveInPlace(fs: FS)
    {
      Bound(fs, target, archiveIno) && archiveIno in fs.inodes && fs.inodes[archiveIno].data == Gzip(text)
    }

    /** No bytes are lost: the old target is still named or the new archive is in place,
        the source is in place unless the archive is, and no inode was rewritten. */
    ghost predicate Safe(fs: FS)
    {
      && SameData(entry, fs)
      && (HadTarget() ==> Named(fs, entry.names[target]) || ArchiveInPlace(fs))
      && (Bound(fs, source, sourceIno) || ArchiveInPlace(fs))
    }

    ghost predicate AllSafe(history: seq<FS>)
    {
      start <= |history| && forall k | start <= k < |history| :: Safe(history[k])
    }

    ghost predicate Begun()
      reads dir`fs, dir`history
    {
      && dir.Valid() && WellFormed(entry)
      && source.File? && target.File? && source != target
      && Bound(entry, source, sourceIno) && entry.inodes[sourceIno].data == Plain(text)
      && archiveIno !in entry.inodes
      && (HadTarget() ==> entry.names[target] != sourceIno)
      && Safe(dir.fs) && AllSafe(dir.history)
    }

    /* ---------- What the flags mean ---------- */

    ghost predicate TargetAsOnEntry(fs: FS)
    {
      if HadTarget() then Bound(fs, target, entry.names[target]) else target !in fs.names
    }

    ghost predicate BackupHolds(fs: FS)
      reads this
    {
      HadTarget() && backupName.Some? && Bound(fs, backupName.value, entry.names[target])
    }

    /** The archive's inode is complete and has exactly one name. */
    ghost predicate ArchiveReady(fs: FS)
    {
      archiveIno in fs.inodes && fs.inodes[archiveIno].data == Gzip(text) && fs.inodes[archiveIno].nlink == 1
    }

    ghost predicate IsArchive(s: Option<Stat>)
    {
      s.Some? ==> s.value.ino == archiveIno && s.value.nlink == 1
    }

    /** The records the transaction keeps about identities. */
    ghost predicate Recorded()
      reads this
    {
      && (existingStat.Some? <==> HadTarget())
      && (HadTarget() ==> existingStat.value.ino == entry.names[target])
      && (backupCreated ==> HadTarget() && backupName.Some? && backupName.value.Backup?
                            && backupStat.Some? && backupStat.value.ino == entry.names[target])
      && tempStat.Some? && IsArchive(tempStat) && IsArchive(activationStat)
      && (targetRemoved ==> activationAttempted)
      && (activationAttempted && HadTarget() ==> backupCreated)
    }

    /** Where the target can be while the transaction is active. */
    ghost predicate Located()
      reads this, dir
    {
      && (!activationAttempted ==> TargetAsOnEntry(dir.fs) && (backupCreated ==> BackupHolds(dir.fs)))
      && (activationAttempted && !HadTarget() ==> target !in dir.fs.names || Bound(dir.fs, target, archiveIno))
      && (activationAttempted && HadTarget() ==>
            || (BackupHolds(dir.fs) && target !in dir.fs.names)
            || (BackupHolds(dir.fs) && TargetAsOnEntry(dir.fs) && !targetRemoved)
            || Bound(dir.fs, target, archiveIno))
    }

    ghost predicate Consistent()
      reads this, dir
    {
      && Begun()
      && (active ==> Bound(dir.fs, source, sourceIno) && ArchiveReady(dir.fs) && Recorded() && Located())
    }

    /* ---------- Single entries ---------- */

    lemma SameDataTrans(fs: FS, gs: FS, hs: FS)
      requires SameData(fs, gs) && SameData(gs, hs)
      ensures SameData(fs, hs)
    {
    }

    /** A call that affects one entry is safe while another entry holds the old target. */
    lemma SafeElsewhere(fs: FS, gs: FS, n: Name, keeper: Name)
      requires SameData(entry, fs) && OnlyAffects(fs, gs, n) && n != source && Bound(fs, source, sourceIno)
      requires HadTarget() ==>
                 || (keeper != n && Bound(fs, keeper, entry.names[target]))
                 || (n != target && ArchiveInPlace(fs))
      ensures Safe(gs) && Bound(gs, source, sourceIno)
    {
      SameDataTrans(entry, fs, gs);
      assert Bound(gs, source, fs.names[source]);
      if HadTarget() {
        if keeper != n && Bound(fs, keeper, entry.names[target]) {
          assert Bound(gs, keeper, entry.names[target]);
        } else {
          assert Bound(gs, target, fs.names[target]);
        }
      }
    }

    /** The same for every directory a call went through. */
    lemma SafeThroughout(before: seq<FS>, fs: FS, n: Name, keeper: Name)
      requires AllSafe(before) && |before| <= |dir.history| && dir.history[..|before|] == before
      requires dir.Since(|before|, fs, n)
      requires SameData(entry, fs) && n != source && Bound(fs, source, sourceIno)
      requires HadTarget() ==>
                 || (keeper != n && Bound(fs, keeper, entry.names[target]))
                 || (n != target && ArchiveInPlace(fs))
      ensures AllSafe(dir.history)
    {
      forall k | start <= k < |dir.history| ensures Safe(dir.history[k]) {
        if k < |before| {
          assert dir.history[k] == before[k];
        } else {
          SafeElsewhere(fs, dir.history[k], n, keeper);
        }
      }
    }

    /** With the archive in place, nothing else matters any more. */
    lemma ArchiveStaysInPlace(fs: FS, gs: FS, n: Name)
      requires SameData(entry, fs) && OnlyAffects(fs, gs, n) && n != target && ArchiveInPlace(fs)
      ensures SameData(entry, gs) && ArchiveInPlace(gs) && Safe(gs)
    {
      SameDataTrans(entry, fs, gs);
      assert Bound(gs, target, fs.names[target]);
    }

    lemma ArchiveThroughout(before: seq<FS>, fs: FS, n: Name)
      requires AllSafe(before) && |before| <= |dir.history| && dir.history[..|before|] == before
      requires dir.Since(|before|, fs, n) && SameData(entry, fs) && n != target && ArchiveInPlace(fs)
      ensures AllSafe(dir.history)
    {
      forall k | start <= k < |dir.history| ensures Safe(dir.history[k]) {
        if k < |before| {
          assert dir.history[k] == before[k];
        } else {
          ArchiveStaysInPlace(fs, dir.history[k], n);
        }
      }
    }

    /** Unlinks the target while `keeper` holds the old one. */
    method UnlinkTarget(expected: Stat, ghost keeper: Name) returns (r: Result<()>)
      requires Begun() && Bound(dir.fs, source, sourceIno)
      requires HadTarget() ==> keeper != target && Bound(dir.fs, keeper, entry.names[target])
      modifies dir
      ensures Begun() && Bound(dir.fs, source, sourceIno)
      ensures HadTarget() ==> Bound(dir.fs, keeper, entry.names[target])
      ensures OnlyAffects(old(dir.fs), dir.fs, target)
      ensures r.Ok? ==> dir.fs.names == old(dir.fs).names - {target}
      ensures dir.FaultFree() && target in old(dir.fs).names && Unclaimed(old(dir.fs), target)
                && StatOf(old(dir.fs), target) == expected
              ==> r.Ok?
    {
      ghost var before, history := dir.fs, dir.history;
      var removed := dir.UnlinkWithParentFsync(target, expected);
      SafeThroughout(history, before, target, keeper);
      SafeElsewhere(before, dir.fs, target, keeper);
      if removed.Err? {
        return Err(removed.error);
      }
      r := if removed.value then Ok(()) else Err(CheckFailed);
    }

    /* ---------- Rollback ---------- */

    method AssertTargetBackupIdentity() returns (r: Result<()>)
      requires dir.Valid() && backupName.Some? && backupStat.Some?
      modifies dir`calls
      ensures r.Ok? ==> Bound(dir.fs, backupName.value, backupStat.value.ino)
    {
      var stat := dir.Lstat(backupName.value);
      if stat.Err? {
        return Err(stat.error);
      }
      r := if stat.value.ino == backupStat.value.ino then Ok(()) else Err(CheckFailed);
    }

    /** Decides what the activation left at the target. */
    method DetectActivation() returns (r: Result<bool>)
      requires Consistent() && active && activationAttempted
      modifies this`targetRemoved, dir`calls
      ensures Consistent()
      ensures r == Ok(true) ==> Bound(dir.fs, target, archiveIno)
      ensures r == Ok(false) && HadTarget() ==> BackupHolds(dir.fs) && (targetRemoved <==> target !in dir.fs.names)
      ensures r == Ok(false) && HadTarget() && !targetRemoved ==> TargetAsOnEntry(dir.fs)
      ensures r == Ok(false) && !HadTarget() ==> TargetAsOnEntry(dir.fs)
    {
      var current := dir.Lstat(target);
      if current.Err? && current.error != Missing {
        return Err(current.error);
      }
      var expected := if activationStat.Some? then activationStat.value else tempStat.value;
      if current.Ok? && current.value.ino == expected.ino && current.value.nlink == expected.nlink {
        return Ok(true);
      }
      if existingStat.None? && current.Err? {
        return Ok(false);
      }
      if existingStat.Some? && current.Err? && (backupCreated || targetRemoved) {
        targetRemoved := true;
        return Ok(false);
      }
      if existingStat.Some? && current.Ok? && current.value.ino == existingStat.value.ino {
        return Ok(false);
      }
      r := Err(CheckFailed);
    }

    /** The backup and the activated archive must both still be what was recorded. */
    method CheckActivated(expected: Stat) returns (r: Result<()>)
      requires Consistent() && active
      modifies dir`calls
      ensures r.Ok? && HadTarget() && backupCreated ==> BackupHolds(dir.fs)
      ensures r.Ok? ==> target in dir.fs.names && Matches(StatOf(dir.fs, target), expected, true)
    {
      if backupCreated {
        r := AssertTargetBackupIdentity();
        if r.Err? {
          return;
        }
      }
      var current := dir.Lstat(target);
      if current.Err? {
        return Err(current.error);
      }
      r := if Matches(current.value, expected, true) then Ok(()) else Err(CheckFailed);
    }

    /** Takes the activated archive out again; the backup must be there first. */
    method RemoveActivated() returns (r: Result<()>)
      requires Consistent() && active && activationAttempted && Bound(dir.fs, target, archiveIno)
      modifies dir
      ensures Begun()
      ensures r.Ok? ==> Bound(dir.fs, source, sourceIno) && target !in dir.fs.names && (HadTarget() ==> BackupHolds(dir.fs))
    {
      var expected := if activationStat.Some? then activationStat.value else tempStat.value;
      r := CheckActivated(expected);
      if r.Err? {
        return;
      }
      r := UnlinkTarget(expected, if HadTarget() then backupName.value else target);
      if r.Err? {
        return;
      }
      r := dir.Fsync();
    }

    /** Puts the old target back from its backup; the target's name must be free. */
    method RestoreBackup() returns (r: Result<()>)
      requires Begun() && Recorded() && backupCreated && Bound(dir.fs, source, sourceIno) && BackupHolds(dir.fs)
      requires target !in dir.fs.names
      modifies dir, this`backupCreated, this`backupName, this`targetRemoved
      ensures Begun()
      ensures r.Ok? ==> TargetAsOnEntry(dir.fs)
    {
      var stat := dir.Lstat(target);
      if stat.Ok? {
        return Err(CheckFailed);
      }
      if stat.error != Missing {
        return Err(stat.error);
      }
      r := AssertTargetBackupIdentity();
      if r.Err? {
        return;
      }
      ghost var before, history := dir.fs, dir.history;
      r := dir.RenameWithoutReplacing(backupName.value, target);
      SameDataTrans(entry, before, dir.fs);
      assert Bound(dir.fs, target, entry.names[target]) || Bound(dir.fs, backupName.value, entry.names[target]);
      if r.Err? {
        return;
      }
      backupCreated, backupName, targetRemoved := false, None, false;
      r := dir.Fsync();
    }

    /** Removes the backup link while its inode is safe elsewhere. */
    method UnlinkTargetBackup() returns (r: Result<()>)
      requires Begun() && Recorded() && backupCreated && Bound(dir.fs, source, sourceIno)
      requires TargetAsOnEntry(dir.fs) || ArchiveInPlace(dir.fs)
      modifies dir
      ensures Begun() && Bound(dir.fs, source, sourceIno)
      ensures OnlyAffects(old(dir.fs), dir.fs, backupName.value)
      ensures r.Ok? ==> backupName.value in old(dir.fs).names && dir.fs.names == old(dir.fs).names - {backupName.value}
      ensures dir.FaultFree() && BackupHolds(old(dir.fs)) && Unclaimed(old(dir.fs), backupName.value) ==> r.Ok?
    {
      var stat := dir.Lstat(backupName.value);
      if stat.Err? {
        return Err(stat.error);
      }
      if stat.value.ino != backupStat.value.ino {
        return Err(CheckFailed);
      }
      ghost var before, history := dir.fs, dir.history;
      r := dir.ClaimAndUnlink(backupName.value, backupStat.value, false);
      SafeThroughout(history, before, backupName.value, target);
      SafeElsewhere(before, dir.fs, backupName.value, target);
    }

    /** Undoes an active transaction.  When it returns normally, the target's name is
        bound exactly as when the transaction began. */
    method RollbackTargetActivation() returns (r: Result<()>)
      requires Consistent()
      modifies dir, this`backupCreated, this`backupName, this`targetRemoved
      ensures Begun()
      ensures !active ==> dir.fs == old(dir.fs)
      ensures r.Ok? && active ==> TargetAsOnEntry(dir.fs) && Bound(dir.fs, source, sourceIno)
    {
      if !active {
        return Ok(());
      }
      var activationVisible := false;
      if activationAttempted {
        var detected := DetectActivation();
        if detected.Err? {
          return Err(detected.error);
        }
        activationVisible := detected.value;
        if activationVisible {
          r := RemoveActivated();
          if r.Err? {
            return;
          }
        }
      }
      if !backupCreated {
        return Ok(());
      }
      if activationVisible || targetRemoved {
        r := RestoreBackup();
      } else {
        r := UnlinkTargetBackup();
        if r.Ok? {
          backupCreated, backupName := false, None;
          r := dir.Fsync();
        }
      }
    }

    /* ---------- The transaction ---------- */

    /** A directory that still shows the source and some name of the old target is safe. */
    lemma SafeHolding(fs: FS, keeper: Name)
      requires SameData(entry, fs) && Bound(fs, source, sourceIno)
      requires HadTarget() ==> Bound(fs, keeper, entry.names[target]) || ArchiveInPlace(fs)
      ensures Safe(fs)
    {
    }

    /** The directory of the beginning, plus names of the temporary archive. */
    ghost predicate OnlyTempAdded(fs: FS)
    {
      && (forall i | i in entry.inodes :: i in fs.inodes && fs.inodes[i] == entry.inodes[i])
      && (forall n | n in entry.names :: Bound(fs, n, entry.names[n]))
      && (forall n | n in fs.names && n !in entry.names :: n.Temp? && fs.names[n] == archiveIno)
    }

    /** No scratch name of an earlier run is left, and the target is not hard-linked. */
    ghost predicate Tidy()
      requires WellFormed(entry)
    {
      && (forall n | n in entry.names :: n.File?)
      && (HadTarget() ==> StatOf(entry, target).nlink == 1)
    }

    lemma TempAddedIsSafe(fs: FS)
      requires OnlyTempAdded(fs) && Bound(entry, source, sourceIno) && target.File?
      ensures Safe(fs) && Bound(fs, source, sourceIno) && TargetAsOnEntry(fs)
    {
      assert HadTarget() ==> Bound(fs, target, entry.names[target]);
    }

    /** Creates, fills and syncs the temporary archive. */
    method PrepareArchive() returns (r: Result<()>)
      requires Begun() && dir.fs == entry && tempName == None && !active
      modifies dir, this`tempName, this`tempStat
      ensures Begun() && OnlyTempAdded(dir.fs)
      ensures tempName.Some? ==> tempName.value.Temp?
      ensures r.Ok? ==> tempName.Some? && tempName.value !in entry.names && Bound(dir.fs, tempName.value, archiveIno)
      ensures r.Ok? ==> ArchiveReady(dir.fs) && tempStat == Some(StatOf(dir.fs, tempName.value))
      ensures r.Ok? ==> forall n | n in dir.fs.names :: n in entry.names || n == tempName.value
      ensures dir.FaultFree() && Tidy() ==> r.Ok?
    {
      var token := dir.Token();
      var name := Temp(target, token);
      r := dir.Create(name, archiveIno, Plain(""));
      TempAddedIsSafe(dir.fs);
      if r.Err? {
        return;
      }
      tempName := Some(name);
      r := FillArchive();
    }

    method FillArchive() returns (r: Result<()>)
      requires Begun() && OnlyTempAdded(dir.fs) && tempName.Some? && tempName.value !in entry.names
      requires Bound(dir.fs, tempName.value, archiveIno) && dir.fs.inodes[archiveIno].nlink == 1
      modifies dir, this`tempStat
      ensures Begun() && OnlyTempAdded(dir.fs) && dir.fs.names == old(dir.fs).names
      ensures r.Ok? ==> ArchiveReady(dir.fs) && tempStat == Some(StatOf(dir.fs, tempName.value))
      ensures dir.FaultFree() ==> r.Ok?
    {
      r := dir.Write(archiveIno, Gzip(text));
      TempAddedIsSafe(dir.fs);
      if r.Err? {
        return;
      }
      r := dir.Fsync();
      if r.Err? {
        return;
      }
      var stat := dir.Lstat(tempName.value);
      if stat.Err? {
        return Err(stat.error);
      }
      if stat.value.nlink != 1 {
        return Err(CheckFailed);
      }
      tempStat := Some(stat.value);
    }

    /** The target before its backup exists. */
    ghost predicate BeforeBackup()
      reads this, dir
    {
      && Consistent() && active && HadTarget() && !activationAttempted && !backupCreated
      && dir.fs.names[target] in dir.fs.inodes
    }

    /** Withdraws a backup link that could not be confirmed; errors are only noted. */
    method WithdrawBackup(candidate: Name)
      requires BeforeBackup() && candidate.Backup?
      modifies dir
      ensures BeforeBackup()
    {
      var stat := dir.Lstat(candidate);
      if stat.Ok? && stat.value.ino == existingStat.value.ino {
        ghost var before, history := dir.fs, dir.history;
        var removed := dir.UnlinkWithParentFsync(candidate, stat.value);
        SafeThroughout(history, before, candidate, target);
        SafeElsewhere(before, dir.fs, candidate, target);
        assert Bound(dir.fs, target, entry.names[target]);
        if removed == Ok(true) {
          var _ := dir.Fsync();
        }
      }
    }

    /** Confirms that the link and the target are the same inode. */
    method ConfirmBackup(candidate: Name) returns (r: Result<Stat>)
      requires BeforeBackup() && candidate != target
      modifies dir`calls
      ensures r.Ok? ==> candidate in dir.fs.names && r.value == StatOf(dir.fs, candidate) && r.value.ino == existingStat.value.ino
      ensures dir.FaultFree() && candidate in dir.fs.names && dir.fs.names[candidate] == entry.names[target]
                && dir.fs.inodes[entry.names[target]].nlink >= 2
              ==> r.Ok?
    {
      var stat := dir.Lstat(candidate);
      if stat.Err? {
        return Err(stat.error);
      }
      var current := dir.Lstat(target);
      if current.Err? {
        return Err(current.error);
      }
      if stat.value.nlink < 2 || stat.value.ino != existingStat.value.ino || current.value.ino != existingStat.value.ino {
        return Err(CheckFailed);
      }
      r := stat;
    }

    /** A backup name is free, and the target has at least its own link. */
    ghost predicate CanBackup(fs: FS)
    {
      && (forall token: nat :: Backup(target, token) !in fs.names)
      && HadTarget() && entry.names[target] in fs.inodes && fs.inodes[entry.names[target]].nlink >= 1
    }

    /** Links and confirms; a link that cannot be confirmed is withdrawn. */
    method LinkBackup(candidate: Name) returns (r: Result<Stat>)
      requires BeforeBackup() && candidate.Backup?
      modifies dir
      ensures BeforeBackup()
      ensures r == Err(Exists) ==> dir.fs == old(dir.fs) && candidate in dir.fs.names
      ensures r.Ok? ==> candidate !in old(dir.fs).names && dir.fs == Linked(old(dir.fs), target, candidate)
      ensures r.Ok? ==> r.value == StatOf(dir.fs, candidate)
      ensures dir.FaultFree() && candidate !in old(dir.fs).names && old(dir.fs).inodes[entry.names[target]].nlink >= 1 ==> r.Ok?
    {
      var linked := dir.Link(target, candidate);
      SameDataTrans(entry, old(dir.fs), dir.fs);
      SafeHolding(dir.fs, target);
      if linked.Err? {
        return Err(linked.error);
      }
      r := ConfirmBackup(candidate);
      if r.Err? {
        WithdrawBackup(candidate);
        r := Err(if r.error == Exists then CheckFailed else r.error);
      }
    }

    /** One attempt to link the old target to a backup name. */
    method TryBackup(candidate: Name) returns (r: Result<()>)
      requires BeforeBackup() && candidate.Backup? && candidate.of == target
      modifies dir, this`backupName, this`backupCreated, this`backupStat
      ensures Consistent() && active
      ensures r == Err(Exists) ==> BeforeBackup() && dir.fs == old(dir.fs) && candidate in dir.fs.names
      ensures r.Ok? ==> backupCreated && backupName == Some(candidate) && candidate !in old(dir.fs).names
      ensures r.Ok? ==> dir.fs == Linked(old(dir.fs), target, candidate)
      ensures dir.FaultFree() && CanBackup(old(dir.fs)) ==> r.Ok?
    {
      assert candidate == Backup(target, candidate.token);
      var linked := LinkBackup(candidate);
      if linked.Err? {
        return Err(linked.error);
      }
      backupName, backupCreated, backupStat := Some(candidate), true, Some(linked.value);
      r := Ok(());
    }

    /** Links the old target to a fresh backup name; a taken name is retried. */
    method MakeBackup() returns (r: Result<()>)
      requires BeforeBackup()
      modifies dir, this`backupName, this`backupCreated, this`backupStat
      ensures Consistent() && active
      ensures r.Ok? ==> backupCreated && backupName.value !in old(dir.fs).names
      ensures r.Ok? ==> dir.fs == Linked(old(dir.fs), target, backupName.value)
      ensures dir.FaultFree() && CanBackup(old(dir.fs)) ==> r.Ok?
    {
      for attempt := 0 to 100
        invariant BeforeBackup() && dir.fs == old(dir.fs)
        invariant dir.FaultFree() && CanBackup(old(dir.fs)) ==> attempt == 0
      {
        var token := dir.Token();
        r := TryBackup(Backup(target, token));
        if r != Err(Exists) {
          return;
        }
      }
      r := Err(CheckFailed);
    }

    /** Unlinks the old target; its backup keeps the inode named throughout. */
    method RemoveOldTarget() returns (r: Result<()>)
      requires Consistent() && active && activationAttempted && backupCreated && !targetRemoved
      requires BackupHolds(dir.fs) && TargetAsOnEntry(dir.fs)
      modifies dir, this`targetRemoved
      ensures Consistent()
      ensures r.Ok? ==> targetRemoved && BackupHolds(dir.fs) && dir.fs.names == old(dir.fs).names - {target}
      ensures r.Ok? ==> StatOf(dir.fs, source) == StatOf(old(dir.fs), source)
      ensures dir.FaultFree() && Unclaimed(old(dir.fs), target) ==> r.Ok?
    {
      var current := dir.Lstat(target);
      if current.Err? {
        return Err(current.error);
      }
      if current.value.ino != existingStat.value.ino {
        return Err(CheckFailed);
      }
      r := UnlinkTarget(current.value, backupName.value);
      if r.Err? {
        return;
      }
      targetRemoved := true;
    }

    method RenameIntoPlace() returns (r: Result<()>)
      requires Consistent() && active && activationAttempted && target !in dir.fs.names
      requires tempName.Some? && tempName.value.Temp? && Bound(dir.fs, tempName.value, archiveIno)
      modifies dir
      ensures Consistent()
      ensures r.Ok? ==> dir.fs == Renamed(old(dir.fs), tempName.value, target)
      ensures HadTarget() ==> BackupHolds(dir.fs)
      ensures dir.FaultFree() ==> r.Ok?
    {
      r := dir.RenameWithoutReplacing(tempName.value, target);
      SameDataTrans(entry, old(dir.fs), dir.fs);
      SafeHolding(dir.fs, if HadTarget() then backupName.value else target);
    }

    /** Renames the temporary archive into place. */
    method ActivateArchive() returns (r: Result<()>)
      requires Consistent() && active && activationAttempted && target !in dir.fs.names && activationStat == None
      requires tempName.Some? && tempName.value.Temp? && Bound(dir.fs, tempName.value, archiveIno)
      modifies dir, this`tempName, this`activationStat
      ensures Consistent()
      ensures r.Ok? ==> Bound(dir.fs, target, archiveIno) && tempName == None
      ensures r.Ok? ==> dir.fs == Renamed(old(dir.fs), old(tempName).value, target)
      ensures tempName == None || tempName == old(tempName)
      ensures HadTarget() ==> BackupHolds(dir.fs)
      ensures dir.FaultFree() ==> r.Ok?
    {
      r := RenameIntoPlace();
      if r.Err? {
        return;
      }
      tempName := None;
      var stat := dir.Lstat(target);
      if stat.Err? {
        return Err(stat.error);
      }
      activationStat := Some(stat.value);
      r := dir.Fsync();
    }

    /** Drops the backup; from here on the new archive is the target. */
    method Commit() returns (r: Result<()>)
      requires Consistent() && active && activationAttempted && Bound(dir.fs, target, archiveIno)
      requires HadTarget() ==> BackupHolds(dir.fs)
      modifies dir, this`backupCreated, this`backupName, this`active
      ensures Consistent() && Bound(dir.fs, source, sourceIno)
      ensures r.Ok? ==> !active && ArchiveInPlace(dir.fs)
      ensures r.Ok? ==> dir.fs.names == if HadTarget() then old(dir.fs).names - {old(backupName).value} else old(dir.fs).names
      ensures r.Ok? ==> StatOf(dir.fs, source) == StatOf(old(dir.fs), source)
      ensures !active ==> ArchiveInPlace(dir.fs)
      ensures dir.FaultFree() && (HadTarget() ==> Unclaimed(old(dir.fs), old(backupName).value)) ==> r.Ok?
    {
      if !backupCreated {
        active := false;
        return Ok(());
      }
      r := UnlinkTargetBackup();
      assert Bound(dir.fs, target, archiveIno);
      if r.Err? {
        return;
      }
      backupCreated, backupName, active := false, None, false;
      r := dir.Fsync();
    }

    /** Removes the source, whose text the archive already holds. */
    method RemoveSource() returns (r: Result<()>)
      requires Begun() && !active && Bound(dir.fs, source, sourceIno) && ArchiveInPlace(dir.fs)
      modifies dir
      ensures Begun() && ArchiveInPlace(dir.fs)
      ensures r.Ok? ==> dir.fs.names == old(dir.fs).names - {source}
      ensures dir.FaultFree() && Unclaimed(old(dir.fs), source) && StatOf(old(dir.fs), source) == StatOf(entry, source) ==> r.Ok?
    {
      var expected := StatOf(entry, source);
      var stat := dir.Lstat(source);
      if stat.Err? {
        return Err(stat.error);
      }
      if stat.value != expected {
        return Err(CheckFailed);
      }
      ghost var before, history := dir.fs, dir.history;
      var removed := dir.UnlinkWithParentFsync(source, expected);
      ArchiveThroughout(history, before, source);
      ArchiveStaysInPlace(before, dir.fs, source);
      if removed.Err? {
        return Err(removed.error);
      }
      assert removed.value by {
        assert source in before.names;
      }
      assert dir.fs.names == before.names - {source};
      r := Ok(());
    }

    /** The old target had one link when it was looked at. */
    ghost predicate OldIsPrivate()
      reads this`existingStat
    {
      existingStat.Some? ==> existingStat.value.nlink == 1
    }

    /** The old target gets a second name before anything happens to it. */
    method BackUpTarget() returns (r: Result<()>)
      requires Consistent() && active && !activationAttempted && !backupCreated
      modifies dir, this`backupName, this`backupCreated, this`backupStat
      ensures Consistent() && active
      ensures r.Ok? ==> (backupCreated <==> HadTarget()) && Located() && OldIsPrivate()
      ensures r.Ok? && HadTarget() ==> backupName.value !in old(dir.fs).names && backupName.value.Backup?
      ensures r.Ok? ==> dir.fs == if HadTarget() then Linked(old(dir.fs), target, backupName.value) else old(dir.fs)
      ensures dir.FaultFree() && (HadTarget() ==> CanBackup(old(dir.fs)) && existingStat.value.nlink == 1) ==> r.Ok?
    {
      if existingStat.None? {
        return Ok(());
      }
      if existingStat.value.nlink != 1 {
        return Err(CheckFailed);
      }
      r := MakeBackup();
      if r.Err? {
        return;
      }
      r := dir.Fsync();
    }

    /** No claimed name is left behind. */
    ghost predicate NoClaims(fs: FS) {
      forall n | n in fs.names :: !n.Cleanup?
    }

    /** Moves the old target away and the archive into its place. */
    method SwapTarget() returns (r: Result<()>)
      requires Consistent() && active && !activationAttempted && !targetRemoved && activationStat == None
      requires backupCreated <==> HadTarget()
      requires tempName.Some? && tempName.value.Temp? && Bound(dir.fs, tempName.value, archiveIno)
      modifies dir, this`activationAttempted, this`targetRemoved, this`tempName, this`activationStat
      ensures Consistent() && active && (tempName == None || tempName == old(tempName))
      ensures r.Ok? ==> activationAttempted && Bound(dir.fs, target, archiveIno) && (HadTarget() ==> BackupHolds(dir.fs))
      ensures r.Ok? ==> StatOf(dir.fs, source) == StatOf(old(dir.fs), source)
      ensures r.Ok? ==> dir.fs.names == (old(dir.fs).names - {target} - {old(tempName).value})[target := archiveIno]
      ensures dir.FaultFree() && NoClaims(old(dir.fs)) ==> r.Ok?
    {
      activationAttempted := true;
      ghost var before := dir.fs.names;
      if backupCreated {
        r := RemoveOldTarget();
        if r.Err? {
          return;
        }
        assert dir.fs.names == before - {target};
      } else {
        assert target !in before;
        assert dir.fs.names == before - {target};
      }
      label removed:
      r := ActivateArchive();
    }

    /** Replaces the target by the temporary archive. */
    method ReplaceTarget() returns (r: Result<()>)
      requires Consistent() && active && !activationAttempted && !targetRemoved && activationStat == None && !backupCreated
      requires tempName.Some? && tempName.value.Temp? && Bound(dir.fs, tempName.value, archiveIno)
      modifies dir, this`activationAttempted, this`targetRemoved, this`tempName, this`activationStat
      modifies this`backupName, this`backupCreated, this`backupStat, this`active
      ensures Consistent() && (tempName == None || tempName == old(tempName))
      ensures r.Ok? ==> !active && ArchiveInPlace(dir.fs) && Bound(dir.fs, source, sourceIno) && OldIsPrivate()
      ensures r.Ok? ==> StatOf(dir.fs, source) == StatOf(old(dir.fs), source)
      ensures r.Ok? ==> ReplacedNames(old(dir.fs).names, dir.fs.names, old(tempName).value)
      ensures dir.FaultFree() && NoClaims(old(dir.fs)) && (HadTarget() ==> CanBackup(old(dir.fs)) && existingStat.value.nlink == 1)
              ==> r.Ok?
    {
      r := BackUpTarget();
      if r.Err? {
        return;
      }
      assert StatOf(dir.fs, source) == StatOf(old(dir.fs), source);
      ghost var backed, backup := dir.fs.names, backupName;
      r := SwapTarget();
      if r.Err? {
        return;
      }
      ghost var swapped := dir.fs.names;
      r := Commit();
    }

    /** The names after the archive took the target's place. */
    ghost predicate ReplacedNames(before: map<Name, Ino>, after: map<Name, Ino>, temp: Name) {
      && target in after && after[target] == archiveIno
      && (forall n | n in after && n != target :: n in before && n != temp && after[n] == before[n])
      && (forall n | n in before && n != target && n != temp :: n in after)
    }

    /** The fields as they are before the first call. */
    ghost predicate Fresh()
      reads this
    {
      && tempName == None && tempStat == None && existingStat == None && backupName == None && backupStat == None
      && activationStat == None && !backupCreated && !activationAttempted && !targetRemoved && !active
    }

    ghost predicate TempIsScratch()
      reads this
    {
      tempName.Some? ==> tempName.value.Temp?
    }

    /** Looks at the target and opens the transaction. */
    method BeginReplacement() returns (r: Result<()>)
      requires Begun() && OnlyTempAdded(dir.fs) && ArchiveReady(dir.fs) && tempStat.Some? && IsArchive(tempStat)
      requires existingStat == None && !backupCreated && !activationAttempted && !targetRemoved && activationStat == None
      modifies dir`calls, this`existingStat, this`active
      ensures Consistent() && active == r.Ok?
      ensures r.Ok? && HadTarget() ==> existingStat == Some(StatOf(dir.fs, target))
      ensures dir.FaultFree() ==> r.Ok?
    {
      TempAddedIsSafe(dir.fs);
      active := false;
      var stat := dir.Lstat(target);
      if stat.Err? && stat.error != Missing {
        return Err(stat.error);
      }
      existingStat := if stat.Ok? then Some(stat.value) else None;
      active := true;
      r := Ok(());
    }

    /** The transaction once the archive is prepared and the target looked at. */
    method Complete() returns (r: Result<()>)
      requires Consistent() && active && OnlyTempAdded(dir.fs) && StatOf(dir.fs, source) == StatOf(entry, source)
      requires !activationAttempted && !targetRemoved && activationStat == None && !backupCreated
      requires tempName.Some? && tempName.value.Temp? && tempName.value !in entry.names && Bound(dir.fs, tempName.value, archiveIno)
      requires forall n | n in dir.fs.names :: n in entry.names || n == tempName.value
      modifies dir, this`activationAttempted, this`targetRemoved, this`tempName, this`activationStat
      modifies this`backupName, this`backupCreated, this`backupStat, this`active
      ensures Consistent() && (tempName == None || tempName == old(tempName))
      ensures r.Ok? ==> ArchiveInPlace(dir.fs) && dir.fs.names == (entry.names - {source})[target := archiveIno] && OldIsPrivate()
      ensures dir.FaultFree() && NoClaims(old(dir.fs)) && (HadTarget() ==> CanBackup(old(dir.fs)) && existingStat.value.nlink == 1)
              ==> r.Ok?
    {
      ghost var prepared, temp := dir.fs.names, tempName.value;
      r := ReplaceTarget();
      if r.Err? {
        return;
      }
      NamesAfterReplacing(prepared, dir.fs.names, temp);
      r := RemoveSource();
    }

    /** The protected part of the transaction, without its rollback. */
    method Attempt() returns (r: Result<()>)
      requires Begun() && dir.fs == entry && Fresh()
      modifies dir, this
      ensures Consistent() && TempIsScratch()
      ensures r.Ok? ==> ArchiveInPlace(dir.fs) && dir.fs.names == (entry.names - {source})[target := archiveIno]
      ensures r.Ok? && HadTarget() ==> StatOf(entry, target).nlink == 1
      ensures dir.FaultFree() && Tidy() ==> r.Ok?
    {
      r := PrepareArchive();
      if r.Err? {
        return;
      }
      r := BeginReplacement();
      if r.Err? {
        return;
      }
      r := Complete();
    }

    lemma NamesAfterReplacing(prepared: map<Name, Ino>, after: map<Name, Ino>, temp: Name)
      requires temp !in entry.names && temp != target && ReplacedNames(prepared, after, temp)
      requires forall n | n in entry.names :: n in prepared && prepared[n] == entry.names[n]
      requires forall n | n in prepared :: n in entry.names || n == temp
      ensures after == entry.names[target := archiveIno]
    {
      assert forall n | n in entry.names && n != target :: n in after;
    }

    /** `_unlink_log_temp`: removes the temporary archive unless it was renamed away. */
    method UnlinkLogTemp() returns (r: Result<()>)
      requires Begun() && TempIsScratch()
      modifies dir
      ensures Begun()
      ensures Bound(old(dir.fs), source, sourceIno) ==> Bound(dir.fs, source, sourceIno)
      ensures TargetAsOnEntry(old(dir.fs)) ==> TargetAsOnEntry(dir.fs)
    {
      if tempName.None? {
        return Ok(());
      }
      var stat := dir.Lstat(tempName.value);
      if stat.Err? {
        return Err(stat.error);
      }
      if stat.value.ino != archiveIno {
        return Err(CheckFailed);
      }
      ghost var before, history := dir.fs, dir.history;
      r := dir.ClaimAndUnlink(tempName.value, stat.value, false);
      ScratchThroughout(history, before, tempName.value);
      ScratchMoved(before, dir.fs, tempName.value);
    }

    /** The archive's own name can go: it is neither the source nor a name of the old target. */
    lemma ScratchMoved(fs: FS, gs: FS, n: Name)
      requires WellFormed(entry) && archiveIno !in entry.inodes && source.File? && target.File?
      requires Safe(fs) && n.Temp? && Bound(fs, n, archiveIno) && OnlyAffects(fs, gs, n)
      ensures Safe(gs)
      ensures Bound(fs, source, sourceIno) ==> Bound(gs, source, sourceIno)
      ensures TargetAsOnEntry(fs) ==> TargetAsOnEntry(gs)
    {
      SameDataTrans(entry, fs, gs);
      assert target in fs.names ==> Bound(gs, target, fs.names[target]);
      assert source in fs.names ==> Bound(gs, source, fs.names[source]);
      if HadTarget() && Named(fs, entry.names[target]) {
        var k :| Bound(fs, k, entry.names[target]);
        assert Bound(gs, k, fs.names[k]);
      }
    }

    lemma ScratchThroughout(before: seq<FS>, fs: FS, n: Name)
      requires WellFormed(entry) && archiveIno !in entry.inodes && source.File? && target.File?
      requires AllSafe(before) && |before| <= |dir.history| && dir.history[..|before|] == before
      requires Safe(fs) && n.Temp? && Bound(fs, n, archiveIno) && dir.Since(|before|, fs, n)
      ensures AllSafe(dir.history)
    {
      forall k | start <= k < |dir.history| ensures Safe(dir.history[k]) {
        if k < |before| {
          assert dir.history[k] == before[k];
        } else {
          ScratchMoved(fs, dir.history[k], n);
        }
      }
    }

    /** `_gzip_file`.  At every instant, under every schedule of failing calls, the old
        target is still named or the new archive is at the target, and the source is gone
        only after its text sits at the target (`Begun` holds of the whole history).
        `undone` tells that the rollback of an active transaction returned normally. */
    method Compress() returns (r: Result<()>, undone: bool)
      requires Begun() && dir.fs == entry && Fresh()
      modifies dir, this
      ensures Begun()
      ensures r.Ok? ==> ArchiveInPlace(dir.fs) && dir.fs.names == (entry.names - {source})[target := archiveIno]
      ensures r.Ok? && HadTarget() ==> StatOf(entry, target).nlink == 1
      ensures undone ==> r.Err? && TargetAsOnEntry(dir.fs) && Bound(dir.fs, source, sourceIno)
      ensures dir.FaultFree() && Tidy() ==> r.Ok?
    {
      undone := false;
      r := Attempt();
      if r.Ok? {
        return;
      }
      var wasActive := active;
      var rolledBack := RollbackTargetActivation();
      undone := wasActive && rolledBack.Ok?;
      var _ := UnlinkLogTemp();
    }
  }
}
