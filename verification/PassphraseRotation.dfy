/** Replacing the default passphrase without ever losing the one it replaces.

    `Rotate` writes the replaced passphrase to the history before it touches the live
    file, keeps a backup link while the live name changes hands, and rolls back from
    memory.  No schedule of failing calls loses a passphrase at any instant. */
module PassphraseRotation {
  import opened Wrappers
  import opened FaultyDirectory
  import opened SecureRemoval
  import H = PassphraseHistory

  class Rotation {
    const dir: Directory
    const path: Name
    const historyName: Name
    const tempIno: Ino
    const passphrase: string     // the new passphrase
    const entry: FS              // the directory when the rotation began
    ghost const start: nat       // the length of the history then
    var tempName: Option<Name>
    var temporaryStat: Option<Stat>
    var existingStat: Option<Stat>
    var previousPayload: Option<Content>
    var backupName: Option<Name>
    var backupCreated: bool
    var targetRemoved: bool
    var activationAttempted: bool
    var activationStat: Option<Stat>
    var active: bool
    ghost var linked: Option<Step>     // the call that links the old file to a backup name
    ghost var spare: Option<Step>      // the first call of the rollback's removal of that link

    constructor (dir: Directory, path: Name, historyName: Name, tempIno: Ino, passphrase: string)
      requires dir.Valid() && LinksCounted(dir.fs)
      requires path.File? && historyName.File? && path != historyName && tempIno !in dir.fs.inodes
      requires H.Acceptable(passphrase)
      ensures Begun() && Fresh() && entry == dir.fs
      ensures this.dir == dir && this.path == path && this.historyName == historyName && this.passphrase == passphrase
    {
      this.dir, this.path, this.historyName, this.tempIno, this.passphrase := dir, path, historyName, tempIno, passphrase;
      entry := dir.fs;
      start := |dir.history|;
      tempName, temporaryStat, existingStat, previousPayload, backupName, activationStat := None, None, None, None, None, None;
      backupCreated, targetRemoved, activationAttempted, active := false, false, false, false;
      linked, spare := None, None;
    }

    ghost predicate Fresh()
      reads this
    {
      && tempName == None && temporaryStat == None && existingStat == None && previousPayload == None && backupName == None
      && activationStat == None && !backupCreated && !targetRemoved && !activationAttempted && !active
      && linked == None && spare == None
    }

    /* ---------- No passphrase is lost ---------- */

    ghost predicate HadKey() {
      path in entry.names
    }

    ghost function OldIno(): Ino
      requires HadKey()
    {
      entry.names[path]
    }

    ghost function OldData(): Content
      requires WellFormed(entry) && HadKey()
    {
      entry.inodes[OldIno()].data
    }

    /** The bytes of the old passphrase are still what they were and still in use. */
    ghost predicate Live(fs: FS)
      requires WellFormed(entry) && HadKey()
    {
      Bound(fs, path, OldIno()) && OldIno() in fs.inodes && fs.inodes[OldIno()].data == OldData()
    }

    /** The history document a decryption would accept. */
    ghost function Readable(fs: FS): Option<seq<string>> {
      if historyName !in fs.names then Some([])
      else if fs.names[historyName] !in fs.inodes then None
      else
        var inode := fs.inodes[fs.names[historyName]];
        if inode.nlink == 1 && inode.data.Keys? && H.ValidKeys(inode.data.keys) then Some(inode.data.keys) else None
    }

    ghost predicate InHistory(fs: FS, key: string) {
      Readable(fs).Some? && key in Readable(fs).value
    }

    ghost function Previous(): string
      requires WellFormed(entry) && HadKey() && OldData().Plain?
    {
      H.RStrip(OldData().text)
    }

    /** Every passphrase that could be recovered at the beginning still can be. */
    ghost predicate Kept(fs: FS)
      requires WellFormed(entry)
    {
      && (forall key :: InHistory(entry, key) ==> InHistory(fs, key))
      && (HadKey() ==> Live(fs) || (OldData().Plain? && InHistory(fs, Previous())))
    }

    ghost predicate AllKept(history: seq<FS>)
      requires WellFormed(entry)
    {
      start <= |history| && forall k | start <= k < |history| :: Kept(history[k])
    }

    ghost predicate Begun()
      reads dir`fs, dir`history
    {
      && dir.Valid() && WellFormed(entry) && LinksCounted(entry)
      && path.File? && historyName.File? && path != historyName
      && tempIno !in entry.inodes && H.Acceptable(passphrase)
      && Kept(dir.fs) && AllKept(dir.history) && HistoryApart(dir.fs)
    }

    /** The history never shares the scratch file's inode. */
    ghost predicate HistoryApart(fs: FS) {
      historyName in fs.names ==> fs.names[historyName] != tempIno
    }

    /* ---------- Before the history is written ---------- */

    /** Nothing but scratch names of the temporary file has changed. */
    ghost predicate Untouched(fs: FS) {
      && (forall i | i in entry.inodes :: i in fs.inodes && fs.inodes[i] == entry.inodes[i])
      && (forall n | n in entry.names :: Bound(fs, n, entry.names[n]))
      && (forall n | n in fs.names && n !in entry.names :: !n.File? && fs.names[n] == tempIno)
    }

    lemma UntouchedIsKept(fs: FS)
      requires WellFormed(entry) && path.File? && historyName.File? && Untouched(fs) && tempIno !in entry.inodes
      ensures Kept(fs) && Readable(fs) == Readable(entry) && HistoryApart(fs)
    {
      assert historyName in fs.names ==> historyName in entry.names;
    }

    /* ---------- Once the history is written ---------- */

    /** The history the rotation leaves: the replaced passphrase before the others. */
    ghost function NewKeys(): seq<string>
      requires WellFormed(entry) && HadKey() && OldData().Plain? && Readable(entry).Some?
    {
      H.HistoryEntries(Previous(), Readable(entry).value)
    }

    /** The history holds the replaced passphrase, in an inode of its own. */
    ghost predicate Recorded(fs: FS)
      requires WellFormed(entry)
    {
      && (historyName in fs.names ==> fs.names[historyName] != tempIno && (HadKey() ==> fs.names[historyName] != OldIno()))
      && (HadKey() ==> OldData().Plain? && H.Acceptable(Previous()) && Readable(entry).Some? && Readable(fs) == Some(NewKeys()))
      && (!HadKey() ==> Readable(fs) == Readable(entry))
    }

    lemma RecordedIsKept(fs: FS)
      requires WellFormed(entry) && Recorded(fs)
      ensures Kept(fs)
      ensures HadKey() ==> forall key :: InHistory(fs, key) <==> InHistory(entry, key) || key == Previous()
    {
      if HadKey() {
        H.HistoryGrows(Previous(), Readable(entry).value);
      }
    }

    /** The record depends on the history's entry and inode alone. */
    lemma RecordedFrame(fs: FS, gs: FS)
      requires WellFormed(entry) && WellFormed(fs) && Recorded(fs)
      requires historyName in gs.names <==> historyName in fs.names
      requires historyName in fs.names ==> Bound(gs, historyName, fs.names[historyName])
      requires historyName in fs.names ==>
                 fs.names[historyName] in gs.inodes && gs.inodes[fs.names[historyName]] == fs.inodes[fs.names[historyName]]
      ensures Recorded(gs) && Kept(gs)
    {
      RecordedIsKept(gs);
    }

    /** Once recorded, calls on any other entry are safe. */
    lemma RecordedStays(fs: FS, gs: FS, n: Name, wipe: bool)
      requires WellFormed(entry) && WellFormed(fs) && Recorded(fs) && Affects(fs, gs, n, wipe) && n != historyName && historyName.File?
      requires n in fs.names ==> fs.names[n] == tempIno || (HadKey() && fs.names[n] == OldIno())
      ensures Recorded(gs) && Kept(gs)
    {
      if historyName in fs.names {
        assert Bound(gs, historyName, fs.names[historyName]);
      } else {
        assert historyName !in gs.names;
      }
      RecordedFrame(fs, gs);
    }

    lemma RecordedThroughout(before: seq<FS>, fs: FS, n: Name, wipe: bool)
      requires WellFormed(entry) && AllKept(before) && |before| <= |dir.history| && dir.history[..|before|] == before
      requires forall k | |before| <= k < |dir.history| :: Affects(fs, dir.history[k], n, wipe)
      requires WellFormed(fs) && Recorded(fs) && n != historyName && historyName.File?
      requires n in fs.names ==> fs.names[n] == tempIno || (HadKey() && fs.names[n] == OldIno())
      ensures AllKept(dir.history)
    {
      forall k | start <= k < |dir.history| ensures Kept(dir.history[k]) {
        if k < |before| {
          assert dir.history[k] == before[k];
        } else {
          RecordedStays(fs, dir.history[k], n, wipe);
        }
      }
    }

    /** Removes the live name or the backup after the history is written. */
    method RemoveRecorded(n: Name, expected: Stat, wipe: bool) returns (r: Result<()>)
      requires Begun() && Recorded(dir.fs) && n != historyName
      requires expected.ino == tempIno || (HadKey() && expected.ino == OldIno())
      modifies dir
      ensures Begun() && Recorded(dir.fs)
      ensures Affects(old(dir.fs), dir.fs, n, wipe)
      ensures !Bound(old(dir.fs), n, expected.ino) ==> r.Err? && dir.fs == old(dir.fs)
      ensures r.Ok? ==> n !in dir.fs.names && forall m | m in dir.fs.names :: m in old(dir.fs).names
      ensures r.Ok? ==> dir.fs.inodes[expected.ino].nlink == Less(old(dir.fs).inodes[expected.ino].nlink)
      ensures wipe ==> KeepsLinks(old(dir.fs), dir.fs)
      ensures r.Ok? && wipe ==> old(dir.fs).inodes[expected.ino].nlink == 1 && dir.fs.inodes[expected.ino].data == Wiped
      ensures !wipe && Bound(old(dir.fs), n, expected.ino) ==> RemovedAt(dir, old(dir.calls), old(dir.fs), n, dir.fs)
      ensures dir.FaultFree() && Unclaimed(old(dir.fs), n) && Bound(old(dir.fs), n, expected.ino)
                && (wipe ==> StatOf(old(dir.fs), n).nlink == 1)
              ==> r.Ok?
    {
      ghost var before, history := dir.fs, dir.history;
      r := RemoveExpectedFile(dir, n, expected, wipe);
      if Bound(before, n, expected.ino) {
        RecordedThroughout(history, before, n, wipe);
        RecordedStays(before, dir.fs, n, wipe);
      }
    }

    /* ---------- A live file with two links ---------- */

    /** The live file is the old one, and has another name. */
    ghost predicate SharedLive(fs: FS) {
      HadKey() && Bound(fs, path, OldIno()) && OldIno() in fs.inodes && fs.inodes[OldIno()].nlink != 1
    }

    /** The old file is live at the step, alone, and the step's name is free for a second link. */
    ghost predicate Linkable(l: Step) {
      && HadKey() && Bound(l.fs, path, OldIno()) && OldIno() in l.fs.inodes && l.fs.inodes[OldIno()].nlink == 1
      && l.name !in l.fs.names
    }

    ghost function LinkedFS(l: Step): FS
      requires Linkable(l)
    {
      Linked(l.fs, path, l.name)
    }

    /** The link is made, and both names are seen. */
    ghost predicate LinkConfirmed(l: Step)
      requires Linkable(l)
    {
      dir.Works(l.call, l.fs) && dir.Works(l.call + 1, LinkedFS(l)) && dir.Works(l.call + 2, LinkedFS(l))
    }

    /** The link is made, and is not confirmed. */
    ghost predicate LeftLinked(l: Step)
      requires Linkable(l)
    {
      dir.Takes(l.call, l.fs) && !LinkConfirmed(l)
    }

    /** The old file has as many links as on entry. */
    ghost predicate AsLinked(fs: FS)
      requires WellFormed(entry)
    {
      HadKey() ==> OldIno() in fs.inodes && fs.inodes[OldIno()].nlink == entry.inodes[OldIno()].nlink
    }

    /** Calls fail, if at all, once the old file has more links or fewer. */
    ghost predicate Quiet()
      requires WellFormed(entry)
    {
      forall fs | AsLinked(fs) :: dir.CalmAt(fs)
    }

    /** The old name is not taken away after the link was confirmed. */
    ghost predicate KeepsLiveName(l: Step)
      requires Linkable(l)
    {
      KeepsEntry(dir, l.call + 3, LinkedFS(l), path)
    }

    /** The rollback takes the spare link away. */
    ghost predicate SpareGoes()
      reads this`spare
    {
      && spare.Some? && spare.value.name in spare.value.fs.names
      && spare.value.fs.names[spare.value.name] in spare.value.fs.inodes
      && UnlinksEntry(dir, spare.value.call, spare.value.fs, spare.value.name)
    }

    /** The outcomes of calls that leave the live file with two links, exactly: it had two, or the
        link to the backup name took effect and either was not confirmed, or was confirmed while the
        old name could not be taken away, nor the spare link by the rollback. */
    ghost predicate EndsShared()
      requires linked.Some? ==> Linkable(linked.value)
      reads this`linked, this`spare
    {
      || SharedLive(entry)
      || (linked.Some? && (LeftLinked(linked.value) || (LinkConfirmed(linked.value) && KeepsLiveName(linked.value) && !SpareGoes())))
    }

    /** The two names of the backup, once it is confirmed and the old name could not be taken away. */
    ghost predicate BothLinked(fs: FS)
      reads this
    {
      && backupCreated && !targetRemoved && !activationAttempted && backupName.Some?
      && HadKey() && Bound(fs, backupName.value, OldIno()) && OldIno() in fs.inodes && fs.inodes[OldIno()].nlink == 2
    }

    /** What is known of the links before any rollback. */
    ghost predicate Tracked()
      reads this, dir`fs
    {
      && spare.None?
      && (linked.None? ==> !backupCreated && !targetRemoved && (SharedLive(dir.fs) <==> SharedLive(entry)))
      && (linked.Some? ==>
            && Linkable(linked.value) && !SharedLive(entry)
            && if !LinkConfirmed(linked.value)
               then !backupCreated && !targetRemoved && (SharedLive(dir.fs) <==> LeftLinked(linked.value))
               else && (SharedLive(dir.fs) <==> KeepsLiveName(linked.value))
                    && (Bound(dir.fs, path, OldIno()) ==> SharedLive(dir.fs) && BothLinked(dir.fs)))
    }

    ghost predicate OldAside(fs: FS) {
      HadKey() ==> !Bound(fs, path, OldIno())
    }

    /** What is known of the links in the end. */
    ghost predicate Settled()
      reads this, dir`fs
    {
      (linked.Some? ==> Linkable(linked.value)) && (SharedLive(dir.fs) <==> EndsShared())
    }

    lemma UntouchedKeepsLinks(fs: FS)
      requires WellFormed(entry) && Untouched(fs) && path.File?
      ensures SharedLive(fs) <==> SharedLive(entry)
    {
    }

    lemma UntouchedIsPlaced(fs: FS)
      requires WellFormed(entry) && WellFormed(fs) && Untouched(fs) && path.File? && tempIno !in entry.inodes
      ensures PathAsOnEntry(fs) && (HadKey() ==> Bound(fs, path, OldIno()) && StatOf(fs, path) == StatOf(entry, path))
    {
      assert path in fs.names ==> path in entry.names;
    }

    lemma UntouchedIsCalm(fs: FS)
      requires WellFormed(entry) && Untouched(fs)
      ensures Quiet() ==> dir.CalmAt(fs)
    {
      assert AsLinked(fs);
    }

    lemma UnconfirmedIsTracked()
      requires linked.Some? && Linkable(linked.value) && !LinkConfirmed(linked.value) && spare.None? && !SharedLive(entry)
      requires !backupCreated && !targetRemoved && (SharedLive(dir.fs) <==> LeftLinked(linked.value))
      ensures Tracked()
    {
    }

    lemma AsideIsTracked()
      requires linked.Some? && Linkable(linked.value) && LinkConfirmed(linked.value) && spare.None? && !SharedLive(entry)
      requires OldAside(dir.fs) && !KeepsLiveName(linked.value)
      ensures Tracked()
    {
    }

    lemma TrackedIsSettled()
      requires Tracked()
      ensures Settled()
    {
    }

    /* ---------- What the flags mean ---------- */

    ghost predicate PathAsOnEntry(fs: FS)
      requires WellFormed(entry)
    {
      if HadKey() then
        path in fs.names && fs.names[path] != tempIno && fs.names[path] in fs.inodes && fs.inodes[fs.names[path]].data == OldData()
      else
        path !in fs.names
    }

    ghost predicate TempIsScratch()
      reads this
    {
      tempName.Some? ==> tempName.value.Temp?
    }

    ghost predicate Noted()
      requires WellFormed(entry)
      reads this
    {
      && temporaryStat.Some? && temporaryStat.value.ino == tempIno
      && (activationStat.Some? ==> activationStat.value.ino == tempIno)
      && (existingStat.Some? <==> HadKey()) && (HadKey() ==> existingStat.value.ino == OldIno())
      && (previousPayload.Some? ==> HadKey() && previousPayload.value == OldData())
      && (backupCreated ==> HadKey() && previousPayload.Some? && backupName.Some? && backupName.value.Backup?)
      && (targetRemoved ==> backupCreated)
      && (activationAttempted && HadKey() ==> targetRemoved)
    }

    /** Where the live name can be while the transaction is active. */
    ghost predicate Placed()
      requires WellFormed(entry)
      reads this, dir
    {
      && (backupCreated || activationAttempted ==> Recorded(dir.fs) && tempIno in dir.fs.inodes)
      && (HadKey() ==> OldIno() in dir.fs.inodes)
      && (!activationAttempted && !backupCreated ==> PathAsOnEntry(dir.fs))
      && (!activationAttempted && backupCreated ==> HadKey() && (path !in dir.fs.names || Live(dir.fs)))
      && (!activationAttempted && targetRemoved ==> path !in dir.fs.names)
      && (activationAttempted ==> path !in dir.fs.names || Bound(dir.fs, path, tempIno))
    }

    ghost predicate Consistent()
      reads this, dir
    {
      Begun() && TempIsScratch() && (active ==> Noted() && Placed())
    }

    /* ---------- Rollback ---------- */

    /** Decides what the activation left under the live name. */
    method DetectActivation() returns (r: Result<bool>)
      requires Consistent() && active && activationAttempted
      modifies this`targetRemoved, dir`calls
      ensures Consistent()
      ensures r == Ok(true) ==> Bound(dir.fs, path, tempIno)
      ensures r == Ok(false) ==> path !in dir.fs.names
    {
      var current := dir.Lstat(path);
      if current.Err? && current.error != Missing {
        return Err(current.error);
      }
      var expected := if activationStat.Some? then activationStat.value else temporaryStat.value;
      if current.Ok? && Matches(current.value, expected, true) {
        return Ok(true);
      }
      if existingStat.None? && current.Err? {
        return Ok(false);
      }
      if existingStat.Some? && current.Err? && backupCreated {
        targetRemoved := true;
        return Ok(false);
      }
      if targetRemoved && current.Err? {
        return Ok(false);
      }
      if existingStat.Some? && current.Ok? && Matches(current.value, existingStat.value, true) {
        return Ok(false);
      }
      r := Err(CheckFailed);
    }

    /** Writes the previous payload back from memory; the live name must be free. */
    method RestorePreviousPayload() returns (r: Result<()>)
      requires Begun() && Recorded(dir.fs) && HadKey() && previousPayload == Some(OldData()) && path !in dir.fs.names
      requires tempIno in dir.fs.inodes && OldIno() in dir.fs.inodes
      modifies dir
      ensures Begun() && Recorded(dir.fs)
      ensures r.Ok? ==> PathAsOnEntry(dir.fs) && dir.fs.names[path] != OldIno()
      ensures !SharedLive(dir.fs)
    {
      var stat := dir.Lstat(path);
      if stat.Ok? {
        return Err(CheckFailed);
      }
      if stat.error != Missing {
        return Err(stat.error);
      }
      ghost var ino: Ino;
      r, ino := dir.WriteAtomically(path, previousPayload.value);
      RecordedFrame(old(dir.fs), dir.fs);
    }

    /** Removes the backup link after the payload was written back. */
    method DropRecoveryBackup() returns (r: Result<()>)
      requires Begun() && Recorded(dir.fs) && Noted() && backupCreated
      requires PathAsOnEntry(dir.fs) && dir.fs.names[path] != OldIno()
      modifies dir
      ensures Begun() && PathAsOnEntry(dir.fs) && !SharedLive(dir.fs)
    {
      r := RemoveRecorded(backupName.value, existingStat.value, true);
      assert Bound(dir.fs, path, old(dir.fs).names[path]);
      if r == Err(Missing) {
        return Ok(());
      }
      if r.Ok? {
        r := dir.Fsync();
      }
    }

    method RemoveVisible() returns (r: Result<()>)
      requires Begun() && Noted() && Recorded(dir.fs) && tempIno in dir.fs.inodes && (HadKey() ==> OldIno() in dir.fs.inodes)
      modifies dir
      ensures Begun() && Recorded(dir.fs) && tempIno in dir.fs.inodes && (HadKey() ==> OldIno() in dir.fs.inodes)
      ensures r.Ok? ==> path !in dir.fs.names
      ensures !SharedLive(old(dir.fs)) ==> !SharedLive(dir.fs)
    {
      r := RemoveRecorded(path, if activationStat.Some? then activationStat.value else temporaryStat.value, true);
      if r.Ok? {
        r := dir.Fsync();
      }
    }

    /** Removes a visible activation and finds out whether the old name is gone. */
    method TakeBackActivation() returns (r: Result<()>)
      requires Consistent() && active
      modifies dir, this`targetRemoved
      ensures Begun() && Noted() && (HadKey() ==> OldIno() in dir.fs.inodes)
      ensures r.Ok? && targetRemoved ==> Recorded(dir.fs) && path !in dir.fs.names && tempIno in dir.fs.inodes
      ensures r.Ok? && !targetRemoved ==> PathAsOnEntry(dir.fs)
      ensures if old(activationAttempted) then !SharedLive(old(dir.fs)) ==> !SharedLive(dir.fs) else dir.fs == old(dir.fs)
      ensures r.Ok? && targetRemoved && !old(targetRemoved) ==> path !in dir.fs.names
      ensures r.Ok? && !targetRemoved && backupCreated ==> Live(dir.fs) && Recorded(dir.fs) && !activationAttempted
    {
      if activationAttempted {
        var visible := DetectActivation();
        if visible.Err? {
          return Err(visible.error);
        }
        if visible.value {
          r := RemoveVisible();
          return;
        }
      } else if backupCreated {
        var stat := dir.Lstat(path);
        if stat.Err? {
          if stat.error != Missing {
            return Err(stat.error);
          }
          targetRemoved := true;
        }
      }
      r := Ok(());
    }

    /** Undoes an active rotation.  When it returns normally, the live file has its old bytes again. */
    method RollbackPassphraseActivation() returns (r: Result<()>)
      requires Consistent() && Tracked()
      modifies dir, this`targetRemoved, this`backupCreated, this`backupName, this`spare
      ensures Begun() && Settled()
      ensures !active ==> dir.fs == old(dir.fs)
      ensures r.Ok? && active ==> PathAsOnEntry(dir.fs)
    {
      TrackedIsSettled();
      if !active {
        return Ok(());
      }
      r := TakeBackActivation();
      if r.Ok? {
        r := UndoRemoval();
      }
    }

    /** Gives the live name back, or takes the spare link away. */
    method UndoRemoval() returns (r: Result<()>)
      requires Begun() && Noted() && Settled() && spare.None? && (HadKey() ==> OldIno() in dir.fs.inodes)
      requires targetRemoved ==> Recorded(dir.fs) && path !in dir.fs.names && tempIno in dir.fs.inodes
      requires !targetRemoved ==> PathAsOnEntry(dir.fs)
      requires !targetRemoved && backupCreated ==>
                 && Live(dir.fs) && Recorded(dir.fs) && linked.Some? && Linkable(linked.value) && !SharedLive(entry)
                 && LinkConfirmed(linked.value) && KeepsLiveName(linked.value) && BothLinked(dir.fs)
      requires targetRemoved && existingStat.Some? && previousPayload.Some? ==> !EndsShared()
      modifies dir, this`backupCreated, this`backupName, this`spare
      ensures Begun() && Settled()
      ensures r.Ok? ==> PathAsOnEntry(dir.fs)
    {
      if existingStat.Some? && targetRemoved && previousPayload.Some? {
        r := WriteBack();
      } else if backupCreated {
        r := RemoveSpare();
      } else {
        r := Ok(());
      }
    }

    /** The live name is free: writes the old bytes back, and drops the backup. */
    method WriteBack() returns (r: Result<()>)
      requires Begun() && Noted() && Recorded(dir.fs) && path !in dir.fs.names && tempIno in dir.fs.inodes
      requires existingStat.Some? && HadKey() && OldIno() in dir.fs.inodes && previousPayload == Some(OldData())
      modifies dir, this`backupCreated, this`backupName
      ensures Begun() && !SharedLive(dir.fs)
      ensures r.Ok? ==> PathAsOnEntry(dir.fs)
    {
      r := RestorePreviousPayload();
      if r.Err? || !backupCreated {
        return;
      }
      r := DropRecoveryBackup();
      if r.Ok? {
        backupName, backupCreated := None, false;
      }
    }

    /** Takes the spare link away; the live file keeps its name. */
    method RemoveSpare() returns (r: Result<()>)
      requires Begun() && Noted() && Recorded(dir.fs) && HadKey() && Live(dir.fs) && existingStat.Some?
      requires linked.Some? && Linkable(linked.value) && spare.None? && !SharedLive(entry)
      requires LinkConfirmed(linked.value) && KeepsLiveName(linked.value) && BothLinked(dir.fs)
      modifies dir, this`spare
      ensures Begun() && Settled() && PathAsOnEntry(dir.fs)
    {
      spare := Some(Step(dir.calls, dir.fs, backupName.value));
      r := RemoveRecorded(backupName.value, existingStat.value, false);
      if r.Ok? {
        r := dir.Fsync();
      }
    }

    /* ---------- The rotation ---------- */

    function Payload(): Content {
      Plain(passphrase + "\n")
    }

    /** The complete new file, under its scratch name only. */
    ghost predicate TempHolds(fs: FS)
      reads this
    {
      && tempName.Some? && tempName.value.Temp? && Bound(fs, tempName.value, tempIno)
      && tempIno in fs.inodes && fs.inodes[tempIno].data == Payload() && fs.inodes[tempIno].nlink == 1
    }

    /** No scratch name of an earlier rotation is left. */
    ghost predicate Tidy() {
      forall n | n in entry.names :: n.File?
    }

    /** Nothing was added beside the names a rotation is meant to leave. */
    ghost predicate NoStrays(fs: FS)
      reads this
    {
      && (forall n | n in fs.names :: n in entry.names || n == path || n == historyName || Some(n) == tempName || Some(n) == backupName)
      && (backupName.Some? ==> backupName.value.Backup?)
    }

    /** One attempt to create the scratch file. */
    method TryTemp() returns (r: Result<()>)
      requires Begun() && dir.fs == entry && Fresh()
      modifies dir, this`tempName
      ensures Begun() && Untouched(dir.fs) && TempIsScratch()
      ensures r == Err(Exists) ==> dir.fs == entry && tempName == None && !Tidy()
      ensures r.Ok? ==> tempName.Some? && Bound(dir.fs, tempName.value, tempIno) && dir.fs.inodes[tempIno].nlink == 1 && NoStrays(dir.fs)
      ensures r.Ok? ==> tempName.value !in entry.names
      ensures Quiet() ==> r.Ok? || r == Err(Exists)
    {
      assert Untouched(dir.fs);
      UntouchedIsCalm(dir.fs);
      var token := dir.Token();
      var name := Temp(path, token);
      r := dir.Create(name, tempIno, Plain(""));
      UntouchedIsKept(dir.fs);
      if r.Ok? {
        tempName := Some(name);
      }
    }

    /** Creates the scratch file under a fresh name; a taken name is retried. */
    method CreateTemp() returns (r: Result<()>)
      requires Begun() && dir.fs == entry && Fresh()
      modifies dir, this`tempName
      ensures Begun() && Untouched(dir.fs) && TempIsScratch()
      ensures r.Ok? ==> tempName.Some? && Bound(dir.fs, tempName.value, tempIno) && dir.fs.inodes[tempIno].nlink == 1 && NoStrays(dir.fs)
      ensures r.Ok? ==> tempName.value !in entry.names
      ensures Quiet() && Tidy() ==> r.Ok?
    {
      for attempt := 0 to 100
        invariant Begun() && dir.fs == entry && Fresh()
        invariant Quiet() && Tidy() ==> attempt == 0
      {
        r := TryTemp();
        if r != Err(Exists) {
          return;
        }
      }
      r := Err(CheckFailed);
    }

    method FillTemp() returns (r: Result<()>)
      requires Begun() && Untouched(dir.fs) && TempIsScratch() && tempName.Some? && tempName.value !in entry.names
      requires Bound(dir.fs, tempName.value, tempIno) && dir.fs.inodes[tempIno].nlink == 1
      requires temporaryStat.Some? && temporaryStat.value.ino == tempIno
      modifies dir, this`temporaryStat
      ensures Begun() && Untouched(dir.fs) && temporaryStat.Some? && temporaryStat.value.ino == tempIno
      ensures dir.fs.names == old(dir.fs).names
      ensures r.Ok? ==> TempHolds(dir.fs) && temporaryStat == Some(StatOf(dir.fs, tempName.value))
      ensures Quiet() ==> r.Ok?
    {
      UntouchedIsCalm(dir.fs);
      r := dir.Write(tempIno, Payload());
      UntouchedIsKept(dir.fs);
      UntouchedIsCalm(dir.fs);
      if r.Err? {
        return;
      }
      r := dir.Fsync();
      if r.Err? {
        return;
      }
      var stat := dir.Lstat(tempName.value);
      if stat.Err? {
        return Err(stat.error);
      }
      temporaryStat := Some(stat.value);
    }

    /** Writes the new passphrase to the scratch file. */
    method PrepareTemp() returns (r: Result<()>)
      requires Begun() && dir.fs == entry && Fresh()
      modifies dir, this`tempName, this`temporaryStat
      ensures Begun() && Untouched(dir.fs) && TempIsScratch()
      ensures temporaryStat.Some? ==> temporaryStat.value.ino == tempIno
      ensures r.Ok? ==> TempHolds(dir.fs) && NoStrays(dir.fs) && temporaryStat == Some(StatOf(dir.fs, tempName.value))
      ensures Quiet() && Tidy() ==> r.Ok?
    {
      r := CreateTemp();
      if r.Err? {
        return;
      }
      UntouchedIsCalm(dir.fs);
      var stat := dir.Lstat(tempName.value);
      if stat.Err? {
        return Err(stat.error);
      }
      temporaryStat := Some(stat.value);
      r := FillTemp();
    }

    /* ---------- The history ---------- */

    /** Checks the keys of a stored history one by one. */
    method ParseKeys(keys: seq<string>) returns (r: Result<seq<string>>)
      ensures r == if H.ValidKeys(keys) then Ok(keys) else Err(CheckFailed)
    {
      if H.RenderedLength(keys) > H.MAX_PASSPHRASE_HISTORY_BYTES || |keys| > H.MAX_PASSPHRASE_HISTORY_ENTRIES {
        return Err(CheckFailed);
      }
      var result: seq<string> := [];
      for i := 0 to |keys|
        invariant result == keys[..i] && H.Distinct(result)
        invariant forall j | 0 <= j < i :: H.Acceptable(keys[j])
      {
        if !H.Acceptable(keys[i]) {
          return Err(CheckFailed);
        }
        if keys[i] in result {
          assert !H.Distinct(keys);
          return Err(CheckFailed);
        }
        result := result + [keys[i]];
      }
      assert keys[..|keys|] == keys;
      r := Ok(result);
    }

    method ReadHistory() returns (r: Result<seq<string>>)
      requires dir.Valid()
      modifies dir`calls
      ensures r.Ok? ==> Readable(dir.fs) == Some(r.value)
      ensures dir.CalmAt(dir.fs) ==> (r.Ok? <==> Readable(dir.fs).Some?)
    {
      var stat := dir.Lstat(historyName);
      if stat == Err(Missing) {
        return Ok([]);
      }
      if stat.Err? {
        return Err(stat.error);
      }
      if stat.value.nlink != 1 {
        return Err(CheckFailed);
      }
      var content := dir.Read(historyName);
      if content.Err? {
        return Err(content.error);
      }
      if !content.value.Keys? {
        return Err(CheckFailed);
      }
      r := ParseKeys(content.value.keys);
    }

    /** The replaced passphrase fits into the history: nothing would be evicted. */
    ghost predicate CanRecord()
      requires WellFormed(entry) && HadKey()
    {
      && OldData().Plain? && H.Acceptable(Previous()) && Readable(entry).Some?
      && |NewKeys()| <= H.MAX_PASSPHRASE_HISTORY_ENTRIES
      && H.RenderedLength(NewKeys()) <= H.MAX_PASSPHRASE_HISTORY_BYTES
    }

    /** Only the history's entry changed. */
    ghost predicate OnlyHistoryWritten(fs: FS, gs: FS) {
      && (forall n | n in fs.names && n != historyName :: Bound(gs, n, fs.names[n]))
      && (forall n | n in gs.names && n != historyName :: n in fs.names)
      && (forall i | i in fs.inodes && !Bound(fs, historyName, i) :: i in gs.inodes && gs.inodes[i] == fs.inodes[i])
      && (historyName in fs.names ==> historyName in gs.names)
    }

    /** `_write_default_passphrase_history`: fails rather than dropping a passphrase. */
    method WriteHistory(payload: Content) returns (r: Result<()>)
      requires Begun() && Untouched(dir.fs) && HadKey() && payload == OldData() && entry.inodes[OldIno()].nlink == 1
      requires tempIno in dir.fs.inodes
      modifies dir
      ensures Begun() && OnlyHistoryWritten(old(dir.fs), dir.fs)
      ensures historyName in dir.fs.names ==> dir.fs.names[historyName] != tempIno && dir.fs.names[historyName] != OldIno()
      ensures r.Ok? ==> Recorded(dir.fs) && CanRecord()
      ensures Quiet() ==> (r.Ok? <==> CanRecord())
    {
      UntouchedIsKept(dir.fs);
      UntouchedIsCalm(dir.fs);
      assert historyName in dir.fs.names ==> historyName in entry.names && dir.fs.names[historyName] != OldIno();
      if !payload.Plain? {
        return Err(CheckFailed);
      }
      var previous := H.RStrip(payload.text);
      if !H.Acceptable(previous) {
        return Err(CheckFailed);
      }
      var existing := ReadHistory();
      if existing.Err? {
        return Err(existing.error);
      }
      var entries := H.HistoryEntries(previous, existing.value);
      assert entries == NewKeys();
      if |entries| > H.MAX_PASSPHRASE_HISTORY_ENTRIES || H.RenderedLength(entries) > H.MAX_PASSPHRASE_HISTORY_BYTES {
        return Err(CheckFailed);
      }
      H.HistoryGrows(previous, existing.value);
      r := WriteKeys(entries);
    }

    /** The whole new history, or none of it. */
    method WriteKeys(entries: seq<string>) returns (r: Result<()>)
      requires Begun() && Untouched(dir.fs) && HadKey() && OldData().Plain? && entry.inodes[OldIno()].nlink == 1
      requires H.Acceptable(Previous()) && Readable(entry).Some? && entries == NewKeys() && H.ValidKeys(entries)
      requires tempIno in dir.fs.inodes
      modifies dir
      ensures Begun() && OnlyHistoryWritten(old(dir.fs), dir.fs)
      ensures historyName in dir.fs.names ==> dir.fs.names[historyName] != tempIno && dir.fs.names[historyName] != OldIno()
      ensures r.Ok? ==> Recorded(dir.fs)
      ensures Quiet() ==> r.Ok?
    {
      UntouchedIsCalm(dir.fs);
      assert historyName in dir.fs.names ==> historyName in entry.names && dir.fs.names[historyName] != OldIno();
      ghost var ino: Ino;
      r, ino := dir.WriteAtomically(historyName, Keys(entries));
      if dir.fs == Replaced(old(dir.fs), historyName, ino, Keys(entries)) {
        assert Recorded(dir.fs);
        RecordedIsKept(dir.fs);
      }
    }

    /* ---------- Recording the previous passphrase ---------- */

    /** The rotation can succeed: the old file is private and its passphrase fits into the history. */
    ghost predicate CanRotate()
      requires WellFormed(entry)
    {
      HadKey() ==>
        && entry.inodes[OldIno()].nlink == 1
        && (OldData().Plain? ==> H.Utf8Length(OldData().text) <= H.MAX_PASSPHRASE_FILE_BYTES)
        && CanRecord()
    }

    /** The transaction is open and only the scratch file exists. */
    ghost predicate Opened()
      reads this, dir
    {
      && Begun() && Untouched(dir.fs) && TempHolds(dir.fs) && NoStrays(dir.fs) && active && Noted()
      && !backupCreated && !activationAttempted && activationStat == None && previousPayload == None
      && (HadKey() ==> existingStat == Some(StatOf(entry, path)))
    }

    method OpenTransaction() returns (r: Result<()>)
      requires Begun() && Untouched(dir.fs) && TempHolds(dir.fs) && NoStrays(dir.fs)
      requires temporaryStat.Some? && temporaryStat.value.ino == tempIno
      requires existingStat == None && previousPayload == None && activationStat == None
      requires !backupCreated && !targetRemoved && !activationAttempted && !active
      modifies dir`calls, this`existingStat, this`active
      ensures Consistent() && active == r.Ok? && dir.fs == old(dir.fs)
      ensures r.Ok? ==> Opened()
      ensures Quiet() ==> r.Ok?
    {
      UntouchedIsPlaced(dir.fs);
      UntouchedIsCalm(dir.fs);
      var stat := dir.Lstat(path);
      if stat.Err? && stat.error != Missing {
        return Err(stat.error);
      }
      existingStat := if stat.Ok? then Some(stat.value) else None;
      active := true;
      r := Ok(());
    }

    /** Reads the live file through a descriptor that must stay the same file. */
    method ReadPreviousPayload() returns (r: Result<Content>)
      requires Opened() && HadKey()
      modifies dir`calls
      ensures r.Ok? ==> r.value == OldData() && (OldData().Plain? ==> H.Utf8Length(OldData().text) <= H.MAX_PASSPHRASE_FILE_BYTES)
      ensures dir.CalmAt(dir.fs) ==>
                (r.Ok? <==> (OldData().Plain? ==> H.Utf8Length(OldData().text) <= H.MAX_PASSPHRASE_FILE_BYTES))
    {
      assert Bound(dir.fs, path, OldIno());
      var current := dir.Lstat(path);
      if current.Err? {
        return Err(current.error);
      }
      if !Matches(current.value, existingStat.value, true) {
        return Err(CheckFailed);
      }
      r := dir.Read(path);
      if r.Err? {
        return;
      }
      if r.value.Plain? && H.Utf8Length(r.value.text) > H.MAX_PASSPHRASE_FILE_BYTES {
        r := Err(CheckFailed);
      }
    }

    /** The previous passphrase is recorded and the live file untouched. */
    ghost predicate BeforeBackup()
      reads this, dir
    {
      && Consistent() && active && HadKey() && Recorded(dir.fs) && TempHolds(dir.fs)
      && Live(dir.fs) && dir.fs.inodes[OldIno()].nlink == 1
      && !backupCreated && !targetRemoved && !activationAttempted && activationStat == None
      && previousPayload.Some? && existingStat.value.nlink == 1 && !SharedLive(entry)
    }

    /** Writing the history leaves the live file and the scratch file alone. */
    lemma WrittenKeeps(fs: FS, gs: FS)
      requires WellFormed(entry) && WellFormed(fs) && Untouched(fs) && TempHolds(fs) && NoStrays(fs) && OnlyHistoryWritten(fs, gs)
      requires HadKey() && path.File? && historyName.File? && path != historyName && tempIno !in entry.inodes
      requires entry.inodes[OldIno()].nlink == 1 && LinksCounted(entry)
      ensures Live(gs) && gs.inodes[OldIno()] == entry.inodes[OldIno()]
      ensures TempHolds(gs) && NoStrays(gs)
    {
      assert Bound(fs, path, OldIno()) && Bound(gs, path, OldIno());
      assert !Bound(fs, historyName, OldIno()) && !Bound(fs, historyName, tempIno) by {
        assert historyName in fs.names ==> historyName in entry.names;
      }
    }

    method RecordPrevious() returns (r: Result<()>)
      requires Opened() && HadKey()
      modifies dir, this`previousPayload
      ensures Consistent() && active && (SharedLive(dir.fs) <==> SharedLive(entry))
      ensures r.Ok? ==> BeforeBackup() && NoStrays(dir.fs) && CanRotate()
      ensures Quiet() ==> (r.Ok? <==> CanRotate())
    {
      assert Bound(dir.fs, path, OldIno());
      UntouchedIsCalm(dir.fs);
      if existingStat.value.nlink != 1 {
        return Err(CheckFailed);
      }
      var payload := ReadPreviousPayload();
      if payload.Err? {
        return Err(payload.error);
      }
      previousPayload := Some(payload.value);
      r := WriteHistory(payload.value);
      WrittenKeeps(old(dir.fs), dir.fs);
    }

    /* ---------- The backup ---------- */

    /** Confirms that the link and the live name are the same inode. */
    method ConfirmBackup(candidate: Name) returns (r: Result<()>)
      requires dir.Valid() && existingStat.Some?
      modifies dir`calls
      ensures r.Ok? ==> Bound(dir.fs, candidate, existingStat.value.ino) && Bound(dir.fs, path, existingStat.value.ino)
      ensures Bound(dir.fs, candidate, existingStat.value.ino) && Bound(dir.fs, path, existingStat.value.ino)
                && StatOf(dir.fs, candidate).nlink >= 2
              ==> (r.Ok? <==> dir.Works(old(dir.calls), dir.fs) && dir.Works(old(dir.calls) + 1, dir.fs))
      ensures r.Ok? ==> dir.calls == old(dir.calls) + 2
      ensures dir.FaultFree() && Bound(dir.fs, candidate, existingStat.value.ino) && Bound(dir.fs, path, existingStat.value.ino)
                && StatOf(dir.fs, candidate).nlink >= 2
              ==> r.Ok?
    {
      var stat := dir.Lstat(candidate);
      if stat.Err? {
        return Err(stat.error);
      }
      var current := dir.Lstat(path);
      if current.Err? {
        return Err(current.error);
      }
      var same := Matches(stat.value, existingStat.value, false) && Matches(current.value, existingStat.value, false);
      r := if same && stat.value.nlink >= 2 then Ok(()) else Err(CheckFailed);
    }

    /** Withdraws a backup link that could not be confirmed.  The live name still links to
        the same inode, so wiping is refused and the withdrawal never succeeds: the live file is
        left with two links, and every later rotation refuses it. */
    method WithdrawBackup(candidate: Name) returns (removed: bool)
      requires Consistent() && active && HadKey() && Recorded(dir.fs) && !backupCreated && !activationAttempted
      requires Live(dir.fs) && dir.fs.inodes[OldIno()].nlink == 2 && candidate.Backup?
      modifies dir
      ensures Consistent() && active && Live(dir.fs)
      ensures !removed && dir.fs.inodes[OldIno()].nlink == 2
    {
      removed := false;
      var stat := dir.Lstat(candidate);
      if stat.Ok? && Matches(stat.value, existingStat.value, false) {
        var r := RemoveRecorded(candidate, existingStat.value, true);
        assert Bound(dir.fs, path, OldIno());
        removed := r.Ok?;
      }
    }

    /** The old inode lives on under its backup name alone. */
    ghost predicate AfterBackup()
      reads this, dir
    {
      && Consistent() && active && HadKey() && Recorded(dir.fs) && TempHolds(dir.fs)
      && backupCreated && targetRemoved && path !in dir.fs.names && Bound(dir.fs, backupName.value, OldIno())
      && dir.fs.inodes[OldIno()].nlink == 1 && !activationAttempted && activationStat == None && existingStat.value.nlink == 1
    }

    lemma LinkingKeeps(fs: FS, gs: FS, candidate: Name)
      requires Begun() && HadKey() && WellFormed(fs) && Recorded(fs) && Live(fs) && candidate.Backup? && candidate !in fs.names
      requires gs == Linked(fs, path, candidate)
      ensures Recorded(gs) && Kept(gs) && Live(gs)
    {
      RecordedFrame(fs, gs);
    }

    /** The old inode has its live name and its backup name. */
    ghost predicate BackedUp()
      reads this, dir
    {
      && Consistent() && active && HadKey() && Recorded(dir.fs) && TempHolds(dir.fs)
      && backupCreated && !activationAttempted && !targetRemoved && activationStat == None && existingStat.value.nlink == 1
      && Live(dir.fs) && Bound(dir.fs, backupName.value, OldIno()) && dir.fs.inodes[OldIno()].nlink == 2
    }

    method LinkBackup(candidate: Name) returns (r: Result<()>)
      requires BeforeBackup() && candidate.Backup?
      requires linked.None? && spare.None?
      modifies dir, this`linked
      ensures Consistent() && active && !backupCreated && !targetRemoved && (r.Err? ==> Tracked())
      ensures r == Err(Exists) ==> linked.None? && BeforeBackup() && dir.fs == old(dir.fs) && candidate in dir.fs.names
      ensures r.Ok? ==> candidate !in old(dir.fs).names && dir.fs == Linked(old(dir.fs), path, candidate) && Live(dir.fs) && Recorded(dir.fs)
      ensures r.Ok? ==> linked == Some(Step(old(dir.calls), old(dir.fs), candidate)) && LinkConfirmed(linked.value) && dir.calls == old(dir.calls) + 3
      ensures candidate !in old(dir.fs).names ==> linked.Some?
      ensures dir.FaultFree() && candidate !in old(dir.fs).names ==> r.Ok?
    {
      r := MakeLink(candidate);
      if r.Ok? {
        r := ConfirmOrWithdraw(candidate);
      }
      if r.Err? && r != Err(Exists) {
        UnconfirmedIsTracked();
      }
    }

    /** The call that links the old file to a backup name. */
    method MakeLink(candidate: Name) returns (r: Result<()>)
      requires BeforeBackup() && candidate.Backup?
      requires linked.None? && spare.None?
      modifies dir, this`linked
      ensures Consistent() && active && Live(dir.fs) && Recorded(dir.fs) && !backupCreated && !targetRemoved
      ensures r == Err(Exists) <==> candidate in old(dir.fs).names
      ensures r == Err(Exists) ==> linked.None? && BeforeBackup() && dir.fs == old(dir.fs)
      ensures r != Err(Exists) ==> linked == Some(Step(old(dir.calls), old(dir.fs), candidate)) && Linkable(linked.value)
      ensures r != Err(Exists) ==> Drawn(linked.value, r.Ok?)
    {
      if candidate !in dir.fs.names {
        linked := Some(Step(dir.calls, dir.fs, candidate));
      }
      r := dir.Link(path, candidate);
      if candidate !in old(dir.fs).names && dir.fs == Linked(old(dir.fs), path, candidate) {
        LinkingKeeps(old(dir.fs), dir.fs, candidate);
      }
    }

    /** What the linking call did and answered. */
    ghost predicate Drawn(l: Step, ok: bool)
      requires Linkable(l)
      reads dir`calls, dir`fs
    {
      dir.Drawn(l.call, l.fs, LinkedFS(l), ok)
    }

    /** The link is made: it is confirmed, or its withdrawal is tried in vain. */
    method ConfirmOrWithdraw(candidate: Name) returns (r: Result<()>)
      requires Consistent() && active && HadKey() && Recorded(dir.fs) && !backupCreated && !targetRemoved && !activationAttempted
      requires linked.Some? && Linkable(linked.value) && spare.None? && !SharedLive(entry) && candidate == linked.value.name
      requires candidate.Backup? && dir.Works(linked.value.call, linked.value.fs)
      requires dir.fs == LinkedFS(linked.value) && dir.calls == linked.value.call + 1 && Live(dir.fs) && existingStat.value.ino == OldIno()
      modifies dir
      ensures Consistent() && active && r != Err(Exists) && (r.Err? ==> SharedLive(dir.fs) && !LinkConfirmed(linked.value))
      ensures r.Ok? ==> dir.fs == old(dir.fs) && LinkConfirmed(linked.value) && dir.calls == old(dir.calls) + 2
      ensures dir.FaultFree() ==> r.Ok?
    {
      r := ConfirmLink(candidate);
      if r.Err? {
        var _ := WithdrawBackup(candidate);
        r := Err(if r.error == Exists then CheckFailed else r.error);
      }
    }

    /** Looks at the link that was just made. */
    method ConfirmLink(candidate: Name) returns (r: Result<()>)
      requires dir.Valid() && linked.Some? && Linkable(linked.value) && candidate == linked.value.name
      requires dir.Works(linked.value.call, linked.value.fs) && existingStat.Some? && existingStat.value.ino == OldIno()
      requires dir.fs == LinkedFS(linked.value) && dir.calls == linked.value.call + 1
      modifies dir`calls
      ensures r.Ok? <==> LinkConfirmed(linked.value)
      ensures r.Ok? ==> dir.calls == old(dir.calls) + 2
      ensures dir.FaultFree() ==> r.Ok?
    {
      assert StatOf(dir.fs, candidate).nlink == 2;
      r := ConfirmBackup(candidate);
    }

    /** One attempt to move the old file to a backup name: link, confirm, then unlink. */
    method TryBackup(candidate: Name) returns (r: Result<()>)
      requires BeforeBackup() && candidate.Backup?
      requires linked.None? && spare.None?
      modifies dir, this`linked, this`backupName, this`backupCreated, this`targetRemoved
      ensures Consistent() && active && Tracked()
      ensures r == Err(Exists) ==> linked.None? && BeforeBackup() && dir.fs == old(dir.fs) && candidate in dir.fs.names
      ensures r == Err(Exists) ==> backupName == old(backupName)
      ensures r.Ok? ==> AfterBackup() && (old(backupName == None && NoStrays(dir.fs)) ==> NoStrays(dir.fs))
      ensures Tidy() && old(backupName == None && NoStrays(dir.fs)) ==> linked.Some?
      ensures dir.FaultFree() && Tidy() && old(backupName == None && NoStrays(dir.fs)) ==> r.Ok?
    {
      r := LinkBackup(candidate);
      if r.Err? {
        return;
      }
      r := KeepBackup(candidate);
    }

    /** Nothing was added beside the link and the names a rotation is meant to leave. */
    ghost predicate OnlyLinked(fs: FS, candidate: Name)
      reads this
    {
      forall n | n in fs.names && n != candidate :: n in entry.names || n == path || n == historyName || Some(n) == tempName
    }

    /** The link is confirmed: it is the backup now. */
    method KeepBackup(candidate: Name) returns (r: Result<()>)
      requires Consistent() && active && HadKey() && Recorded(dir.fs) && TempHolds(dir.fs) && candidate.Backup?
      requires !backupCreated && !targetRemoved && !activationAttempted && activationStat == None && previousPayload.Some?
      requires existingStat.value.nlink == 1 && Live(dir.fs) && spare.None? && !SharedLive(entry)
      requires linked.Some? && Linkable(linked.value) && LinkConfirmed(linked.value) && linked.value.name == candidate
      requires dir.fs == LinkedFS(linked.value) && dir.calls == linked.value.call + 3
      modifies dir, this`backupName, this`backupCreated, this`targetRemoved
      ensures Consistent() && active && r != Err(Exists) && Tracked()
      ensures r.Ok? ==> AfterBackup()
      ensures r.Ok? && old(OnlyLinked(dir.fs, candidate)) ==> NoStrays(dir.fs)
      ensures dir.FaultFree() && Tidy() && old(OnlyLinked(dir.fs, candidate)) ==> r.Ok?
    {
      backupName, backupCreated := Some(candidate), true;
      r := MoveOldAside();
    }

    /** The link is confirmed and both names are there. */
    ghost predicate Confirmed()
      reads this, dir
    {
      && BackedUp() && linked.Some? && Linkable(linked.value) && LinkConfirmed(linked.value) && spare.None? && !SharedLive(entry)
      && dir.fs == LinkedFS(linked.value) && dir.calls == linked.value.call + 3
    }

    /** Unlinks the live name; the backup keeps the inode. */
    method UnlinkLiveName() returns (r: Result<()>)
      requires BackedUp()
      modifies dir
      ensures Begun() && Recorded(dir.fs) && TempHolds(dir.fs)
      ensures Bound(dir.fs, backupName.value, OldIno()) && (path !in dir.fs.names || Live(dir.fs))
      ensures RemovedAt(dir, old(dir.calls), old(dir.fs), path, dir.fs)
      ensures r.Ok? ==> path !in dir.fs.names && dir.fs.inodes[OldIno()].nlink == 1
      ensures r.Ok? ==> forall n | n in dir.fs.names :: n in old(dir.fs).names
      ensures dir.FaultFree() && Unclaimed(old(dir.fs), path) ==> r.Ok?
    {
      r := RemoveRecorded(path, existingStat.value, false);
    }

    /** What taking the live name away left of the links. */
    lemma UnlinkedIsTracked(fs: FS)
      requires WellFormed(entry) && linked.Some? && Linkable(linked.value) && LinkConfirmed(linked.value)
      requires RemovedAt(dir, linked.value.call + 3, LinkedFS(linked.value), path, fs)
      requires path in fs.names ==> Bound(fs, path, OldIno())
      ensures SharedLive(fs) <==> KeepsLiveName(linked.value)
      ensures path in fs.names ==> fs.inodes[OldIno()].nlink == 2
    {
    }

    /** The live name is taken away, or the failure is recorded as it is. */
    method TakeLiveName() returns (r: Result<()>)
      requires Confirmed()
      modifies dir
      ensures Consistent() && active && Tracked()
      ensures r.Ok? ==> TempHolds(dir.fs) && path !in dir.fs.names && Bound(dir.fs, backupName.value, OldIno())
      ensures r.Ok? ==> dir.fs.inodes[OldIno()].nlink == 1 && forall n | n in dir.fs.names :: n in old(dir.fs).names
      ensures dir.FaultFree() && Unclaimed(old(dir.fs), path) ==> r.Ok?
    {
      r := UnlinkLiveName();
      UnlinkedIsTracked(dir.fs);
    }

    lemma TidyIsUnclaimed(fs: FS)
      requires Tidy() && NoStrays(fs) && path.File? && historyName.File? && TempIsScratch()
      ensures Unclaimed(fs, path)
    {
    }

    method MoveOldAside() returns (r: Result<()>)
      requires Confirmed()
      modifies dir, this`targetRemoved
      ensures Consistent() && active && r != Err(Exists) && Tracked()
      ensures r.Ok? ==> AfterBackup() && (old(NoStrays(dir.fs)) ==> NoStrays(dir.fs))
      ensures dir.FaultFree() && Tidy() && old(NoStrays(dir.fs)) ==> r.Ok?
    {
      if Tidy() && NoStrays(dir.fs) {
        TidyIsUnclaimed(dir.fs);
      }
      r := TakeLiveName();
      if r.Err? {
        return Err(if r.error == Exists then CheckFailed else r.error);
      }
      r := NoteRemoved();
    }

    /** The backup name is the old file's only one. */
    method NoteRemoved() returns (r: Result<()>)
      requires Consistent() && active && Tracked() && linked.Some? && LinkConfirmed(linked.value)
      requires backupCreated && HadKey() && Recorded(dir.fs) && TempHolds(dir.fs) && existingStat.value.nlink == 1 && !SharedLive(entry)
      requires path !in dir.fs.names && Bound(dir.fs, backupName.value, OldIno()) && dir.fs.inodes[OldIno()].nlink == 1
      requires !activationAttempted && activationStat == None
      modifies dir`calls, this`targetRemoved
      ensures AfterBackup() && Tracked() && r != Err(Exists)
      ensures dir.FaultFree() ==> r.Ok?
    {
      targetRemoved := true;
      AsideIsTracked();
      r := dir.Fsync();
    }

    /** Moves the old file to a fresh backup name; a taken name is retried. */
    method BackUpAndRemove() returns (r: Result<()>)
      requires BeforeBackup() && linked.None? && spare.None?
      modifies dir, this`linked, this`backupName, this`backupCreated, this`targetRemoved
      ensures Consistent() && active && Tracked()
      ensures r.Ok? ==> AfterBackup() && (old(backupName == None && NoStrays(dir.fs)) ==> NoStrays(dir.fs))
      ensures Tidy() && old(backupName == None && NoStrays(dir.fs)) ==> linked.Some?
      ensures dir.FaultFree() && Tidy() && old(backupName == None && NoStrays(dir.fs)) ==> r.Ok?
    {
      for attempt := 0 to 100
        invariant linked.None? && spare.None? && BeforeBackup() && dir.fs == old(dir.fs) && backupName == old(backupName)
        invariant Tidy() && old(backupName == None && NoStrays(dir.fs)) ==> attempt == 0
      {
        var token := dir.Token();
        r := TryBackup(Backup(path, token));
        if r != Err(Exists) {
          return;
        }
      }
      r := Err(CheckFailed);
    }

    /* ---------- Activation ---------- */

    ghost predicate OldKeptAside()
      requires WellFormed(entry)
      reads this, dir
    {
      && (backupCreated <==> HadKey())
      && (HadKey() ==> targetRemoved && backupName.Some? && Bound(dir.fs, backupName.value, OldIno()) && OldIno() in dir.fs.inodes
                       && dir.fs.inodes[OldIno()].nlink == 1 && existingStat.Some? && existingStat.value.nlink == 1)
    }

    ghost predicate ReadyToActivate()
      reads this, dir
    {
      && Consistent() && active && Recorded(dir.fs) && TempHolds(dir.fs) && path !in dir.fs.names && OldKeptAside()
      && !activationAttempted && activationStat == None
    }

    /** The replaced file's bytes are gone for good. */
    ghost predicate OldWiped(fs: FS) {
      HadKey() ==> OldIno() in fs.inodes && fs.inodes[OldIno()].data == Wiped
    }

    /** The new file is live. */
    ghost predicate Activated()
      reads this, dir
    {
      && Consistent() && Recorded(dir.fs) && Bound(dir.fs, path, tempIno) && tempIno in dir.fs.inodes
      && dir.fs.inodes[tempIno].data == Payload() && tempName == None
    }

    /** Moves the old file out of the way, if there is one. */
    method MakeWay() returns (r: Result<()>)
      requires Opened() && backupName == None && linked.None? && spare.None? && !targetRemoved
      modifies dir, this`linked, this`previousPayload, this`backupName, this`backupCreated, this`targetRemoved
      ensures Consistent() && active && Tracked()
      ensures r.Ok? ==> ReadyToActivate() && NoStrays(dir.fs) && CanRotate() && (!HadKey() ==> backupName == None)
      ensures Quiet() && Tidy() && HadKey() && CanRotate() ==> linked.Some?
      ensures dir.FaultFree() && Tidy() ==> (r.Ok? <==> CanRotate())
    {
      if existingStat.None? {
        UntouchedIsKept(dir.fs);
        assert path !in dir.fs.names;
        return Ok(());
      }
      r := RecordPrevious();
      if r.Err? {
        return;
      }
      r := BackUpAndRemove();
    }

    lemma ActivatingKeeps(fs: FS, gs: FS, temp: Name)
      requires Begun() && WellFormed(fs) && Recorded(fs) && temp.Temp? && Bound(fs, temp, tempIno) && tempIno in fs.inodes
      requires gs == Renamed(fs, temp, path)
      ensures Recorded(gs) && Kept(gs)
    {
      RecordedFrame(fs, gs);
    }

    /** Renames the new file; the name is free, so the rename never finds it taken. */
    method RenameIntoPlace() returns (r: Result<()>)
      requires ReadyToActivate()
      modifies dir
      ensures Begun() && Recorded(dir.fs) && tempIno in dir.fs.inodes && dir.fs.inodes[tempIno].data == Payload() && OldKeptAside()
      ensures path !in dir.fs.names || Bound(dir.fs, path, tempIno)
      ensures r != Err(Exists)
      ensures r.Ok? ==> Bound(dir.fs, path, tempIno)
      ensures r.Ok? ==> forall n | n in dir.fs.names :: n == path || (n in old(dir.fs).names && n != tempName.value)
      ensures dir.FaultFree() ==> r.Ok?
    {
      r := dir.RenameWithoutReplacing(tempName.value, path);
      if dir.fs == Renamed(old(dir.fs), tempName.value, path) {
        ActivatingKeeps(old(dir.fs), dir.fs, tempName.value);
      }
    }

    /** Makes the new file live. */
    method Activate() returns (r: Result<()>)
      requires ReadyToActivate()
      modifies dir, this`tempName, this`activationStat, this`activationAttempted
      ensures Consistent() && active && r != Err(Exists) && OldAside(dir.fs)
      ensures r.Ok? ==> Activated() && activationAttempted && OldKeptAside() && (old(NoStrays(dir.fs)) ==> NoStrays(dir.fs))
      ensures dir.FaultFree() ==> r.Ok?
    {
      r := RenameIntoPlace();
      activationAttempted := true;
      if r.Err? {
        return;
      }
      tempName := None;
      r := InspectActivation();
    }

    method InspectActivation() returns (r: Result<()>)
      requires Activated() && active && activationAttempted && OldKeptAside()
      modifies dir`calls, this`activationStat
      ensures Activated() && OldKeptAside() && r != Err(Exists)
      ensures dir.FaultFree() ==> r.Ok?
    {
      var stat := dir.Lstat(path);
      if stat.Err? {
        return Err(stat.error);
      }
      activationStat := Some(stat.value);
      r := dir.Fsync();
    }

    /** Overwrites the old file, which has no other name left. */
    method ScrubBackup() returns (r: Result<()>)
      requires Activated() && active && activationAttempted && OldKeptAside() && HadKey()
      modifies dir
      ensures Activated() && OldKeptAside() && dir.fs.names == old(dir.fs).names
      ensures dir.FaultFree() ==> r.Ok?
    {
      var stat := dir.Lstat(backupName.value);
      if stat.Err? {
        return Err(stat.error);
      }
      if !Matches(stat.value, existingStat.value, true) {
        return Err(CheckFailed);
      }
      r := dir.Write(stat.value.ino, Wiped);
      RecordedFrame(old(dir.fs), dir.fs);
    }

    method RemoveBackup() returns (r: Result<()>)
      requires Activated() && active && activationAttempted && OldKeptAside() && HadKey()
      modifies dir
      ensures Activated()
      ensures r.Ok? ==> backupName.value !in dir.fs.names && OldWiped(dir.fs) && forall n | n in dir.fs.names :: n in old(dir.fs).names
      ensures dir.FaultFree() && Unclaimed(old(dir.fs), backupName.value) ==> r.Ok?
    {
      r := RemoveRecorded(backupName.value, existingStat.value, true);
      assert Bound(dir.fs, path, tempIno);
    }

    method EraseBackup() returns (r: Result<()>)
      requires Activated() && active && activationAttempted && OldKeptAside() && HadKey()
      modifies dir
      ensures Activated()
      ensures r.Ok? ==> backupName.value !in dir.fs.names && OldWiped(dir.fs) && forall n | n in dir.fs.names :: n in old(dir.fs).names
      ensures dir.FaultFree() && Unclaimed(old(dir.fs), backupName.value) ==> r.Ok?
    {
      r := ScrubBackup();
      if r.Err? {
        return;
      }
      r := RemoveBackup();
      if r.Ok? {
        r := dir.Fsync();
      }
    }

    /** Wipes and removes the backup; from here on the new passphrase is the only live one. */
    method DropBackup() returns (r: Result<()>)
      requires Activated() && active && activationAttempted && OldKeptAside() && backupCreated
      modifies dir, this`backupName, this`backupCreated, this`active
      ensures Consistent() && OldAside(dir.fs)
      ensures r.Ok? ==> Activated() && !active && OldWiped(dir.fs) && backupName == None && (old(NoStrays(dir.fs)) ==> NoStrays(dir.fs))
      ensures dir.FaultFree() && Tidy() && old(NoStrays(dir.fs)) ==> r.Ok?
    {
      r := EraseBackup();
      if r.Err? {
        return;
      }
      backupName, backupCreated, active := None, false, false;
    }

    method Commit() returns (r: Result<()>)
      requires Activated() && active && activationAttempted && OldKeptAside() && (!HadKey() ==> backupName == None)
      modifies dir, this`backupName, this`backupCreated, this`active
      ensures Consistent() && OldAside(dir.fs) && (!old(backupCreated) ==> !backupCreated)
      ensures r.Ok? ==> Activated() && !active && OldWiped(dir.fs) && backupName == None && (old(NoStrays(dir.fs)) ==> NoStrays(dir.fs))
      ensures dir.FaultFree() && Tidy() && old(NoStrays(dir.fs)) ==> r.Ok?
    {
      if backupCreated {
        r := DropBackup();
        if r.Err? {
          return;
        }
      }
      r := dir.Fsync();
      if r.Ok? {
        active := false;
      }
    }

    /** The old file out of the way, the new one in, the backup dropped. */
    method Replace() returns (r: Result<()>)
      requires Opened() && backupName == None && linked.None? && spare.None? && !targetRemoved
      modifies dir, this`linked, this`previousPayload, this`backupName, this`backupCreated, this`targetRemoved
      modifies this`tempName, this`activationStat, this`activationAttempted, this`active
      ensures Consistent() && Tracked()
      ensures r.Ok? ==> Activated() && !active && OldWiped(dir.fs) && NoStrays(dir.fs) && backupName == None && CanRotate()
      ensures Quiet() && Tidy() && HadKey() && CanRotate() ==> linked.Some?
      ensures dir.FaultFree() && Tidy() ==> (r.Ok? <==> CanRotate())
    {
      r := MakeWay();
      if r.Err? {
        return;
      }
      r := Activate();
      if r.Err? {
        return;
      }
      r := Commit();
    }

    /** The protected part of the rotation, without its rollback. */
    method Attempt() returns (r: Result<()>)
      requires Begun() && dir.fs == entry && Fresh()
      modifies dir, this
      ensures Consistent() && Tracked() && (temporaryStat.Some? ==> temporaryStat.value.ino == tempIno)
      ensures r.Ok? ==> Activated() && !active && OldWiped(dir.fs) && NoStrays(dir.fs) && backupName == None && CanRotate()
      ensures Quiet() && Tidy() && HadKey() && CanRotate() ==> linked.Some?
      ensures dir.FaultFree() && Tidy() ==> (r.Ok? <==> CanRotate())
    {
      r := PrepareTemp();
      if r.Err? {
        return;
      }
      r := OpenTransaction();
      if r.Err? {
        return;
      }
      r := Replace();
    }

    /** A claim or a wipe of the scratch file touches nothing that holds a passphrase. */
    lemma ScratchMoved(fs: FS, gs: FS, n: Name, wipe: bool)
      requires WellFormed(entry) && WellFormed(fs) && path.File? && historyName.File? && n.Temp?
      requires tempIno !in entry.inodes && Bound(fs, n, tempIno) && Affects(fs, gs, n, wipe) && HistoryApart(fs)
      requires Kept(fs)
      ensures Kept(gs) && HistoryApart(gs)
      ensures PathAsOnEntry(fs) ==> PathAsOnEntry(gs)
      ensures SharedLive(gs) <==> SharedLive(fs)
    {
      assert Readable(gs) == Readable(fs) by {
        assert historyName in gs.names ==> historyName in fs.names;
      }
      assert path in gs.names ==> path in fs.names;
    }

    /** Removes what is left of the scratch file, and wipes it if that fails. */
    method RemoveTemporaryFile() returns (r: Result<()>)
      requires Begun() && TempIsScratch() && (temporaryStat.Some? ==> temporaryStat.value.ino == tempIno)
      modifies dir
      ensures Begun()
      ensures PathAsOnEntry(old(dir.fs)) ==> PathAsOnEntry(dir.fs)
      ensures SharedLive(dir.fs) <==> SharedLive(old(dir.fs))
    {
      if tempName.None? {
        return Ok(());
      }
      if temporaryStat.None? {
        return Err(CheckFailed);
      }
      ghost var before, history := dir.fs, dir.history;
      r := RemoveExpectedFile(dir, tempName.value, temporaryStat.value, true);
      if Bound(before, tempName.value, tempIno) {
        forall k | start <= k < |dir.history| ensures Kept(dir.history[k]) {
          if k < |history| {
            assert dir.history[k] == history[k];
          } else {
            ScratchMoved(before, dir.history[k], tempName.value, true);
          }
        }
        ScratchMoved(before, dir.fs, tempName.value, true);
      }
      r := if r == Err(Missing) then Ok(()) else r;
    }

    /** Overwrites the scratch file under its own name; errors are suppressed. */
    method ScrubTemp()
      requires Begun() && TempIsScratch() && (temporaryStat.Some? ==> temporaryStat.value.ino == tempIno)
      modifies dir
      ensures Begun() && (PathAsOnEntry(old(dir.fs)) ==> PathAsOnEntry(dir.fs))
      ensures SharedLive(dir.fs) <==> SharedLive(old(dir.fs))
    {
      if tempName.None? || temporaryStat.None? {
        return;
      }
      var stat := dir.Lstat(tempName.value);
      if stat.Ok? && Matches(stat.value, temporaryStat.value, true) {
        var _ := dir.Write(stat.value.ino, Wiped);
        assert Readable(dir.fs) == Readable(old(dir.fs));
      }
    }

    /** `_generate_default_passphrase_file` in replace mode.  Under every schedule of failing
        calls `Begun` holds of the whole history: at every instant the replaced passphrase is
        in the live file or in the history, and nothing leaves the history.  A rotation that
        would have to evict a passphrase fails.  `undone` tells that the rollback of an
        active transaction returned normally. */
    method Rotate() returns (r: Result<string>, undone: bool)
      requires Begun() && dir.fs == entry && Fresh()
      modifies dir, this
      ensures Begun()
      ensures r.Ok? ==> r.value == passphrase && Bound(dir.fs, path, tempIno) && dir.fs.inodes[tempIno].data == Payload()
      ensures r.Ok? ==> Recorded(dir.fs) && OldWiped(dir.fs) && CanRotate()
      ensures r.Ok? ==> forall n | n in dir.fs.names :: n in entry.names || n == path || n == historyName
      ensures undone ==> r.Err? && PathAsOnEntry(dir.fs)
      ensures Settled()
      ensures Quiet() && Tidy() && HadKey() && CanRotate() ==> linked.Some?
      ensures dir.FaultFree() && Tidy() ==> (r.Ok? <==> CanRotate())
    {
      undone := false;
      var attempt := Attempt();
      if attempt.Ok? {
        return Ok(passphrase), false;
      }
      r := Err(attempt.error);
      var wasActive := active;
      var rolledBack := RollbackPassphraseActivation();
      undone := wasActive && rolledBack.Ok?;
      var removed := RemoveTemporaryFile();
      if removed.Err? {
        ScrubTemp();
      }
    }

    /** After a completed rotation exactly the new passphrase, the replaced one and the
        history of before open artifacts: whatever could be opened before still can. */
    lemma RotationKeepsArtifactsReadable(fs: FS, artifact: H.Sealed)
      requires WellFormed(entry) && Recorded(fs) && H.Acceptable(passphrase)
      requires Bound(fs, path, tempIno) && tempIno in fs.inodes && fs.inodes[tempIno].data == Payload()
      ensures H.RStrip(fs.inodes[tempIno].data.text) == passphrase
      ensures Opens(passphrase, fs, artifact) <==>
                || artifact.passphrase == passphrase
                || (HadKey() && artifact.passphrase == Previous())
                || InHistory(entry, artifact.passphrase)
      ensures HadKey() && Opens(Previous(), entry, artifact) ==> Opens(passphrase, fs, artifact)
    {
      H.StrippedLineIsPassphrase(passphrase);
      RecordedIsKept(fs);
    }

    /** A decryption with this current passphrase and the history of `fs` succeeds. */
    ghost predicate Opens(current: string, fs: FS, artifact: H.Sealed) {
      artifact.passphrase == current || InHistory(fs, artifact.passphrase)
    }
  }

  /** A link count of one means that there is one name. */
  ghost predicate LinksCounted(fs: FS)
  {
    forall a, b | a in fs.names && b in fs.names && fs.names[a] == fs.names[b] && fs.names[a] in fs.inodes && fs.inodes[fs.names[a]].nlink == 1 ::
      a == b
  }

  /* ---------- A rotation that leaves two links ---------- */

  const EXAMPLE_KEY := File("passphrase")
  const EXAMPLE_HISTORY := File("passphrase-history")

  function ExampleDirectory(key: string): FS {
    FS(map[EXAMPLE_KEY := 0], map[0 := Inode(Plain(key), 1, 0)], 1)
  }

  /** Every call fails that meets the old file with two links. */
  const STUCK_ON_TWO: (nat, FS) -> Fault :=
    (call: nat, fs: FS) => if 0 in fs.inodes && fs.inodes[0].nlink == 2 then Fails(false, false) else NoFault

  lemma ExampleNames()
    ensures EXAMPLE_KEY != EXAMPLE_HISTORY
  {
    assert |"passphrase"| != |"passphrase-history"|;
  }

  /** An acceptable passphrase alone fits into an empty history. */
  lemma FirstKeyFits(key: string)
    requires H.Acceptable(key)
    ensures H.RStrip(key) == key && H.HistoryEntries(key, []) == [key] && H.RenderedLength([key]) <= H.MAX_PASSPHRASE_HISTORY_BYTES
  {
    assert !H.IsControl(key[|key| - 1]);
    var keys := [key];
    assert keys[1..] == [] && H.KeysLength(keys[1..]) == 0;
    assert H.KeysLength(keys) == 2 + (H.Utf8Length(key) + 2) / 3 * 4;
  }

  /** The link is made, and then no call works any more: the rotation fails, and the live file is
      left with two links, so that every later rotation refuses it. */
  method TwoLinksExample(key: string, next: string) returns (rotation: Rotation, r: Result<string>)
    requires H.Acceptable(key) && H.Acceptable(next)
    ensures r.Err? && EXAMPLE_KEY in rotation.dir.fs.names && rotation.dir.fs.names[EXAMPLE_KEY] == 0
    ensures 0 in rotation.dir.fs.inodes && rotation.dir.fs.inodes[0].nlink != 1
  {
    ExampleNames();
    FirstKeyFits(key);
    var dir := new Directory(ExampleDirectory(key), STUCK_ON_TWO, k => k);
    rotation := new Rotation(dir, EXAMPLE_KEY, EXAMPLE_HISTORY, 1, next);
    ghost var entry := rotation.entry;
    assert rotation.Quiet() by {
      forall fs | rotation.AsLinked(fs) ensures dir.CalmAt(fs) {
        forall k: nat ensures dir.Works(k, fs) {}
      }
    }
    assert rotation.CanRecord();
    var undone;
    r, undone := rotation.Rotate();
    ghost var l := rotation.linked.value;
    assert rotation.AsLinked(l.fs);
    assert dir.Works(l.call, l.fs) && !dir.Works(l.call + 1, rotation.LinkedFS(l));
    assert rotation.LeftLinked(l) && rotation.EndsShared();
  }
}
