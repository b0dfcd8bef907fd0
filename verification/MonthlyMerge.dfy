/** Merging a month's daily logs into its archive as a transaction with rollback.

    The archive is rebuilt from its old content and the daily sources, put in place, and only
    then are the sources removed, one by one.  From the first removal on there is no way back
    and no need for one: the archive holds everything. */
module MonthlyMerge {
  import opened FaultyDirectory
  import Retention = LogRetention
  import opened MonthlySources
  import opened ShortReads
  import opened Wrappers

  /** What copying one source gives. */
  datatype Copied = Copied(text: string) | Absent | Malformed | CopyFailed(error: Error)

  /** How the removal of one source ends: done, with an error noted, with an error that ends
      the loop, or with an error raised at once. */
  datatype Removal = Removed | NotedError(error: Error) | StopWith(error: Error) | RaiseWith(error: Error)

  datatype Quarantined = Moved(stat: Stat) | OsError | CheckError | Interrupted

  /** One call, and the directory it meets. */
  datatype Look = Look(call: nat, fs: FS)

  predicate IsOsError(e: Error) {
    e.Exists? || e.Missing? || e.OsFailure?
  }

  class Merge {
    const dir: Directory
    const archive: Name
    const sources: seq<Name>        // the month's daily logs, as the scan found them
    const archiveIno: Ino           // the inode of the temporary archive
    const cuts: nat -> nat          // how short the reads of the sources are
    const entry: FS                 // the directory when the merge began
    ghost const start: nat          // the length of the history then
    var tempName: Option<Name>
    var sourceStats: map<Name, Stat>
    var archiveStat: Option<Stat>
    var backupName: Option<Name>
    var backupMoved: bool
    var activationAttempted: bool
    var activationStat: Option<Stat>
    var active: bool
    var rollbackSafe: bool
    ghost var inspection: Option<Look>   // the look at the archive's name after its removal had failed and it was gone

    constructor (dir: Directory, archive: Name, sources: seq<Name>, archiveIno: Ino, cuts: nat -> nat)
      requires dir.Valid() && archive.File? && sources != [] && archiveIno !in dir.fs.inodes
      requires forall s | s in sources :: s.File? && s != archive && s in dir.fs.names
      ensures this.dir == dir && this.archive == archive && this.sources == sources && this.archiveIno == archiveIno
      ensures entry == dir.fs && Begun() && Fresh()
    {
      this.dir, this.archive, this.sources, this.archiveIno, this.cuts := dir, archive, sources, archiveIno, cuts;
      entry := dir.fs;
      start := |dir.history|;
      tempName, archiveStat, backupName, activationStat, sourceStats := None, None, None, None, map[];
      backupMoved, activationAttempted, active, rollbackSafe, inspection := false, false, false, true, None;
      new;
      HomeIsKept(dir.fs, archive);
    }

    ghost predicate Fresh()
      reads this
    {
      && tempName == None && archiveStat == None && backupName == None && activationStat == None && sourceStats == map[]
      && !backupMoved && !activationAttempted && !active && rollbackSafe && inspection == None
    }

    /* ---------- No bytes are ever lost ---------- */

    ghost predicate HadArchive() {
      archive in entry.names
    }

    /** The archive's old content and the sources, in the order of their names. */
    ghost function Order(): seq<Name> {
      SortByName((if HadArchive() then [archive] else []) + sources)
    }

    ghost function Text(): string {
      MergedText(entry, Order())
    }

    ghost predicate ArchiveInPlace(fs: FS) {
      Bound(fs, archive, archiveIno) && archiveIno in fs.inodes && fs.inodes[archiveIno].data == Gzip(Text())
    }

    /** Some name leads to the inode. */
    ghost predicate Named(fs: FS, ino: Ino) {
      exists n :: Bound(fs, n, ino)
    }

    /** An inode that was the old archive or a source. */
    ghost predicate IsProtected(ino: Ino) {
      (HadArchive() && ino == entry.names[archive]) || exists s :: s in sources && Bound(entry, s, ino)
    }

    /** Either the new archive is in place, which holds all the text, or the old archive and
        every source are still under some name; and no inode was rewritten. */
    ghost predicate Kept(fs: FS) {
      SameData(entry, fs) && (ArchiveInPlace(fs) || forall ino | IsProtected(ino) :: Named(fs, ino))
    }

    ghost predicate AllKept(history: seq<FS>) {
      start <= |history| && forall k | start <= k < |history| :: Kept(history[k])
    }

    ghost predicate Begun()
      reads dir`fs, dir`history
    {
      && dir.Valid() && WellFormed(entry) && archive.File? && sources != []
      && (forall s | s in sources :: s.File? && s != archive && s in entry.names)
      && archiveIno !in entry.inodes && Kept(dir.fs) && AllKept(dir.history)
    }

    ghost predicate SourcesHome(fs: FS) {
      forall s | s in sources :: s in entry.names && Bound(fs, s, entry.names[s])
    }

    /** The old archive is under this name. */
    ghost predicate OldAt(fs: FS, keeper: Name) {
      HadArchive() ==> Bound(fs, keeper, entry.names[archive])
    }

    lemma SameDataTrans(fs: FS, gs: FS, hs: FS)
      requires SameData(fs, gs) && SameData(gs, hs)
      ensures SameData(fs, hs)
    {
    }

    lemma HomeIsKept(fs: FS, keeper: Name)
      requires SameData(entry, fs) && SourcesHome(fs) && OldAt(fs, keeper)
      ensures Kept(fs)
    {
    }

    /** A call on one entry is safe while the sources are home and another name keeps the old archive. */
    lemma KeptElsewhere(fs: FS, gs: FS, n: Name, keeper: Name)
      requires SameData(entry, fs) && OnlyAffects(fs, gs, n) && SourcesHome(fs) && n !in sources
      requires HadArchive() ==> keeper != n && OldAt(fs, keeper)
      ensures Kept(gs) && SourcesHome(gs) && (HadArchive() ==> OldAt(gs, keeper))
    {
      SameDataTrans(entry, fs, gs);
      assert HadArchive() ==> Bound(gs, keeper, fs.names[keeper]);
      HomeIsKept(gs, keeper);
    }

    lemma KeptThroughout(before: seq<FS>, fs: FS, n: Name, keeper: Name)
      requires AllKept(before) && |before| <= |dir.history| && dir.history[..|before|] == before
      requires dir.Since(|before|, fs, n)
      requires SameData(entry, fs) && SourcesHome(fs) && n !in sources
      requires HadArchive() ==> keeper != n && OldAt(fs, keeper)
      ensures AllKept(dir.history)
    {
      forall k | start <= k < |dir.history| ensures Kept(dir.history[k]) {
        if k < |before| {
          assert dir.history[k] == before[k];
        } else {
          KeptElsewhere(fs, dir.history[k], n, keeper);
        }
      }
    }

    /** With the archive in place, calls on any other entry are safe. */
    lemma ArchiveStaysInPlace(fs: FS, gs: FS, n: Name)
      requires SameData(entry, fs) && OnlyAffects(fs, gs, n) && n != archive && ArchiveInPlace(fs)
      ensures SameData(entry, gs) && ArchiveInPlace(gs) && Kept(gs)
    {
      SameDataTrans(entry, fs, gs);
      assert Bound(gs, archive, fs.names[archive]);
    }

    lemma ArchiveThroughout(before: seq<FS>, fs: FS, n: Name)
      requires AllKept(before) && |before| <= |dir.history| && dir.history[..|before|] == before
      requires dir.Since(|before|, fs, n) && SameData(entry, fs) && n != archive && ArchiveInPlace(fs)
      ensures AllKept(dir.history)
    {
      forall k | start <= k < |dir.history| ensures Kept(dir.history[k]) {
        if k < |before| {
          assert dir.history[k] == before[k];
        } else {
          ArchiveStaysInPlace(fs, dir.history[k], n);
        }
      }
    }

    /* ---------- Building the archive ---------- */

    /** The directory of the beginning, plus names of the temporary archive. */
    ghost predicate OnlyTempAdded(fs: FS) {
      && (forall i | i in entry.inodes :: i in fs.inodes && fs.inodes[i] == entry.inodes[i])
      && (forall n | n in entry.names :: Bound(fs, n, entry.names[n]))
      && (forall n | n in fs.names && n !in entry.names :: n.Temp? && fs.names[n] == archiveIno)
    }

    lemma TempAddedIsKept(fs: FS)
      requires WellFormed(entry) && OnlyTempAdded(fs) && forall s | s in sources :: s in entry.names
      ensures Kept(fs) && SourcesHome(fs) && OldAt(fs, archive)
    {
      HomeIsKept(fs, archive);
    }

    /** Nothing of an earlier run is left, no file is hard-linked, and all content is readable. */
    ghost predicate Tidy()
      requires WellFormed(entry)
    {
      && (forall n | n in entry.names :: n.File?)
      && (forall n | n in entry.names :: StatOf(entry, n).nlink == 1)
      && (forall a, b | a in entry.names && b in entry.names && entry.names[a] == entry.names[b] :: a == b)
      && (forall i, j | 0 <= i < j < |sources| :: sources[i] != sources[j])
    }

    /** Neither the archive nor a source has another link, such as a backup that was left over. */
    ghost predicate Unshared()
      requires WellFormed(entry) && forall s | s in sources :: s in entry.names
    {
      && (HadArchive() ==> StatOf(entry, archive).nlink == 1)
      && (forall s | s in sources :: StatOf(entry, s).nlink == 1)
    }

    /** No call fails while the archive, if there is one, has its name. */
    ghost predicate Calm() {
      dir.FaultFree() || (HadArchive() && forall k: nat, fs: FS | archive in fs.names :: dir.Works(k, fs))
    }

    /** No call fails while the archive has its name, and none works while it has not. */
    ghost predicate Jammed() {
      && HadArchive() && (forall k: nat, fs: FS | archive in fs.names :: dir.Works(k, fs))
      && forall k: nat, fs: FS | archive !in fs.names :: !dir.Works(k, fs) && !dir.Takes(k, fs)
    }

    /** Every source can be read, uncompressed if need be, and is not too long. */
    ghost predicate Readable(order: seq<Name>)
      requires WellFormed(entry)
    {
      forall i | 0 <= i < |order| && order[i] in entry.names :: ReadableName(order[i])
    }

    ghost predicate ReadableName(n: Name)
      requires WellFormed(entry) && n in entry.names
    {
      var text := TextOf(n, entry.inodes[entry.names[n]].data);
      text.Some? && |text.value| <= Retention.MAX_TOTAL_LOG_BYTES
    }

    /** The identity of a source is noted when its text is copied. */
    ghost predicate StatsNoted()
      reads this
    {
      forall s | s in sourceStats :: s in entry.names && entry.names[s] in entry.inodes && sourceStats[s] == StatOf(entry, s) && sourceStats[s].nlink == 1
    }

    method CopySource(path: Name) returns (c: Copied)
      requires Begun() && OnlyTempAdded(dir.fs) && path in entry.names && StatsNoted()
      modifies dir`calls, this`sourceStats
      ensures StatsNoted()
      ensures forall s | s in old(sourceStats) :: s in sourceStats
      ensures c.Copied? ==> path in sourceStats
      ensures c.Copied? ==> Some(c.text) == TextOf(path, entry.inodes[entry.names[path]].data)
      ensures c != Absent
      ensures Calm() && StatOf(entry, path).nlink == 1 && ReadableName(path) ==> c.Copied?
    {
      assert Bound(dir.fs, path, entry.names[path]);
      var found := dir.Lstat(path);
      if found.Err? {
        return if found.error == Missing then Absent else CopyFailed(found.error);
      }
      if found.value.nlink != 1 {
        return CopyFailed(CheckFailed);
      }
      sourceStats := sourceStats[path := found.value];
      var content := dir.Read(path);
      if content.Err? {
        return CopyFailed(content.error);
      }
      var text := TextOf(path, content.value);
      if text.None? {
        return Malformed;
      }
      var stream := new ShortStream(text.value, cuts);
      var copied := CopyStreamCapped(stream);
      c := if copied.None? then CopyFailed(CheckFailed) else Copied(copied.value);
    }

    lemma MergedNext(order: seq<Name>, i: nat, text: string)
      requires i < |order| && order[i] in entry.names && entry.names[order[i]] in entry.inodes
      requires TextOf(order[i], entry.inodes[entry.names[order[i]]].data) == Some(text)
      ensures MergedText(entry, order[..i + 1]) == MergedText(entry, order[..i]) + (text + "\n")
    {
      assert order[..i + 1][..i] == order[..i];
    }

    /** The text of the first `n` sources. */
    ghost predicate IsMerged(order: seq<Name>, n: nat, text: string) {
      n <= |order| && text == MergedText(entry, order[..n])
    }

    /** Copies the next source and a line end behind the text so far. */
    method CopyNext(order: seq<Name>, i: nat, text: string) returns (c: Copied)
      requires Begun() && OnlyTempAdded(dir.fs) && StatsNoted() && i < |order| && order[i] in entry.names
      requires IsMerged(order, i, text)
      modifies dir`calls, this`sourceStats
      ensures StatsNoted() && c != Absent
      ensures forall s | s in old(sourceStats) :: s in sourceStats
      ensures c.Copied? ==> order[i] in sourceStats && IsMerged(order, i + 1, c.text)
      ensures Calm() && Tidy() && Readable(order) ==> c.Copied?
    {
      c := CopySource(order[i]);
      if c.Copied? {
        MergedNext(order, i, c.text);
        c := Copied(text + (c.text + "\n"));
      }
    }

    /** Copies the named files one after another. */
    method CopySources(order: seq<Name>) returns (c: Copied)
      requires Begun() && OnlyTempAdded(dir.fs) && sourceStats == map[]
      requires forall i | 0 <= i < |order| :: order[i] in entry.names
      modifies dir`calls, this`sourceStats
      ensures StatsNoted() && c != Absent
      ensures c.Copied? ==> IsMerged(order, |order|, c.text)
      ensures c.Copied? ==> forall i | 0 <= i < |order| :: order[i] in sourceStats
      ensures Calm() && Tidy() && Readable(order) ==> c.Copied?
    {
      c := Copied("");
      for i := 0 to |order|
        invariant StatsNoted() && c.Copied? && IsMerged(order, i, c.text)
        invariant forall k | 0 <= k < i :: order[k] in sourceStats
      {
        c := CopyNext(order, i, c.text);
        if !c.Copied? {
          return;
        }
      }
    }

    lemma OrderCovers()
      requires forall s | s in sources :: s in entry.names
      ensures forall i | 0 <= i < |Order()| :: Order()[i] in entry.names
      ensures forall s | s in sources :: exists i :: 0 <= i < |Order()| && Order()[i] == s
    {
      OrderMembers();
      forall i | 0 <= i < |Order()| ensures Order()[i] in entry.names {
        assert Order()[i] in Order();
      }
    }

    lemma OrderMembers()
      ensures forall n :: n in Order() <==> n in sources || (n == archive && HadArchive())
    {
      SortedMembers((if HadArchive() then [archive] else []) + sources);
    }

    /** What to merge, in which order: an existing archive is a source of its own. */
    method ListOrder() returns (r: Result<seq<Name>>)
      requires Begun() && dir.fs == entry
      modifies dir`calls
      ensures r.Ok? ==> r.value == Order() && (HadArchive() ==> StatOf(entry, archive).nlink == 1)
      ensures Calm() && Tidy() ==> r.Ok?
    {
      var existing := dir.Lstat(archive);
      if existing.Err? && existing.error != Missing {
        return Err(existing.error);
      }
      if existing.Ok? && existing.value.nlink != 1 {
        return Err(CheckFailed);
      }
      r := Ok(SortByName((if existing.Ok? then [archive] else []) + sources));
    }

    /** Creates the temporary archive, fills it and syncs it; false when a source is malformed. */
    method PrepareArchive() returns (r: Result<bool>)
      requires Begun() && dir.fs == entry && Fresh()
      modifies dir, this`tempName, this`sourceStats, this`activationStat
      ensures Begun() && OnlyTempAdded(dir.fs) && StatsNoted()
      ensures tempName.Some? ==> tempName.value.Temp?
      ensures activationStat.Some? ==> activationStat.value.ino == archiveIno
      ensures r.Ok? && r.value ==> tempName.Some? && tempName.value !in entry.names && ArchiveReady(dir.fs)
      ensures r.Ok? && r.value ==> Bound(dir.fs, tempName.value, archiveIno) && Unshared()
      ensures r.Ok? && r.value ==> activationStat == Some(StatOf(dir.fs, tempName.value)) && forall s | s in sources :: s in sourceStats
      ensures r.Ok? && r.value ==> forall n | n in dir.fs.names :: n in entry.names || n == tempName.value
      ensures Calm() && Tidy() && Readable(Order()) ==> r.Ok? && r.value
    {
      var order := ListOrder();
      if order.Err? {
        return Err(order.error);
      }
      var created := CreateTemp();
      if created.Err? {
        return Err(created.error);
      }
      r := FillFromSources(order.value);
    }

    method FillFromSources(order: seq<Name>) returns (r: Result<bool>)
      requires Begun() && OnlyTempAdded(dir.fs) && order == Order() && sourceStats == map[]
      requires tempName.Some? && tempName.value !in entry.names
      requires Bound(dir.fs, tempName.value, archiveIno) && dir.fs.inodes[archiveIno].nlink == 1
      modifies dir, this`sourceStats, this`activationStat
      ensures Begun() && OnlyTempAdded(dir.fs) && StatsNoted() && dir.fs.names == old(dir.fs).names
      ensures !(r.Ok? && r.value) ==> activationStat == old(activationStat)
      ensures r.Ok? && r.value ==> ArchiveReady(dir.fs) && activationStat == Some(StatOf(dir.fs, tempName.value))
      ensures r.Ok? && r.value ==> forall s | s in sources :: s in sourceStats
      ensures Calm() && Tidy() && Readable(Order()) ==> r.Ok? && r.value
    {
      OrderCovers();
      var c := CopySources(order);
      if c.CopyFailed? {
        return Err(c.error);
      }
      if c.Malformed? {
        return Ok(false);
      }
      assert order[..|order|] == order;
      var filled := FillTemp(c.text);
      r := if filled.Ok? then Ok(true) else Err(filled.error);
    }

    /** The archive's inode is complete and has exactly one name. */
    ghost predicate ArchiveReady(fs: FS) {
      archiveIno in fs.inodes && fs.inodes[archiveIno].data == Gzip(Text()) && fs.inodes[archiveIno].nlink == 1
    }

    method CreateTemp() returns (r: Result<()>)
      requires Begun() && dir.fs == entry && tempName == None
      modifies dir, this`tempName
      ensures Begun() && OnlyTempAdded(dir.fs) && (tempName.Some? ==> tempName.value.Temp?)
      ensures r.Ok? ==> tempName.Some? && tempName.value !in entry.names && Bound(dir.fs, tempName.value, archiveIno)
      ensures r.Ok? ==> dir.fs.inodes[archiveIno].nlink == 1 && forall n | n in dir.fs.names :: n in entry.names || n == tempName.value
      ensures Calm() && Tidy() ==> r.Ok?
    {
      var token := dir.Token();
      var name := Temp(archive, token);
      r := dir.Create(name, archiveIno, Plain(""));
      TempAddedIsKept(dir.fs);
      if r.Ok? {
        tempName := Some(name);
      }
    }

    method FillTemp(text: string) returns (r: Result<()>)
      requires Begun() && OnlyTempAdded(dir.fs) && text == Text() && tempName.Some? && tempName.value !in entry.names
      requires Bound(dir.fs, tempName.value, archiveIno) && dir.fs.inodes[archiveIno].nlink == 1
      modifies dir, this`activationStat
      ensures Begun() && OnlyTempAdded(dir.fs) && dir.fs.names == old(dir.fs).names
      ensures activationStat == old(activationStat) || r.Ok?
      ensures r.Ok? ==> ArchiveReady(dir.fs) && activationStat == Some(StatOf(dir.fs, tempName.value))
      ensures Calm() ==> r.Ok?
    {
      r := dir.Write(archiveIno, Gzip(text));
      TempAddedIsKept(dir.fs);
      if r.Err? {
        return;
      }
      r := dir.Fsync();
      if r.Err? {
        return;
      }
      var stat := dir.Lstat(tempName.value);
      if stat.Err? {
        return Err(stat.error);
      }
      if stat.value.nlink != 1 {
        return Err(CheckFailed);
      }
      activationStat := Some(stat.value);
    }

    /* ---------- What the flags mean ---------- */

    ghost predicate TempIsScratch()
      reads this`tempName
    {
      tempName.Some? ==> tempName.value.Temp?
    }

    /** The complete archive, under its scratch name. */
    ghost predicate TempHolds(fs: FS)
      reads this`tempName
    {
      ArchiveReady(fs) && tempName.Some? && tempName.value.Temp? && Bound(fs, tempName.value, archiveIno)
    }

    ghost predicate BackupHolds(fs: FS)
      reads this`backupName
    {
      HadArchive() && backupName.Some? && backupName.value.Backup? && Bound(fs, backupName.value, entry.names[archive])
    }

    /** Where the old archive can be while the merge can still be rolled back. */
    ghost predicate Located(fs: FS)
      reads this`backupName, this`backupMoved, this`activationAttempted
    {
      && (backupMoved ==> BackupHolds(fs))
      && (!activationAttempted ==>
            if HadArchive() then
              (Bound(fs, archive, entry.names[archive]) && !backupMoved) || (BackupHolds(fs) && archive !in fs.names)
            else archive !in fs.names)
      && (activationAttempted ==> (archive !in fs.names || Bound(fs, archive, archiveIno)) && (HadArchive() ==> backupMoved))
    }

    ghost predicate Noted()
      reads this`archiveStat, this`activationStat, this`backupMoved
    {
      && (archiveStat.Some? ==> HadArchive() && archiveStat.value.ino == entry.names[archive])
      && (activationStat.Some? ==> activationStat.value.ino == archiveIno)
      && (backupMoved ==> archiveStat.Some?)
    }

    /** The archive lost its name, and the look that would have noticed failed. */
    ghost predicate Overlooked()
      reads this`inspection
    {
      inspection.Some? && !dir.Works(inspection.value.call, inspection.value.fs)
    }

    /** That, and nothing else, leaves the archive without its name and its backup unnoted. */
    ghost predicate Tracked()
      reads this`inspection, this`backupMoved, dir`fs
    {
      HadArchive() && !backupMoved && archive !in dir.fs.names <==> Overlooked()
    }

    ghost predicate Lost()
      reads this`active, this`rollbackSafe, this`backupMoved, this`activationAttempted, dir`fs
    {
      active && rollbackSafe && !backupMoved && !activationAttempted && archive !in dir.fs.names
    }

    /** While a rollback is safe, every source is home; after that the archive is in place. */
    ghost predicate Consistent()
      reads this, dir`fs, dir`history
    {
      && Begun() && TempIsScratch()
      && (active ==>
            && Noted()
            && if rollbackSafe then SourcesHome(dir.fs) && ArchiveReady(dir.fs) && Located(dir.fs) else ArchiveInPlace(dir.fs))
    }

    /** Open, and nothing but the scratch archive has happened. */
    ghost predicate Opened()
      reads this, dir`fs, dir`history
    {
      && Consistent() && active && rollbackSafe && TempHolds(dir.fs) && !activationAttempted && !backupMoved
    }

    /** The sources are still exactly the files whose identities were noted. */
    ghost predicate SourcesStill(fs: FS) {
      forall s | s in sources ::
        && s in entry.names && entry.names[s] in entry.inodes && Bound(fs, s, entry.names[s])
        && entry.names[s] in fs.inodes && fs.inodes[entry.names[s]] == entry.inodes[entry.names[s]]
    }

    /** No claimed or quarantined name is left. */
    ghost predicate NoClaims(fs: FS) {
      forall n | n in fs.names :: !n.Cleanup? && !n.Merged?
    }

    /* ---------- The backup ---------- */

    lemma WithdrawingKeeps(fs: FS, gs: FS, candidate: Name)
      requires SameData(entry, fs) && SourcesHome(fs) && HadArchive() && Bound(fs, archive, entry.names[archive]) && TempHolds(fs)
      requires OnlyAffects(fs, gs, candidate) && candidate.Backup? && archive.File? && forall s | s in sources :: s.File?
      requires archiveIno !in entry.inodes && WellFormed(entry) && Bound(fs, candidate, entry.names[archive])
      ensures Kept(gs) && SourcesHome(gs) && Bound(gs, archive, entry.names[archive]) && TempHolds(gs)
    {
      KeptElsewhere(fs, gs, candidate, archive);
      assert Bound(gs, tempName.value, archiveIno);
    }

    /** Withdraws a backup link while the archive is still under its own name. */
    method WithdrawBackup(candidate: Name)
      requires Opened() && HadArchive() && archiveStat.Some? && candidate.Backup? && Bound(dir.fs, archive, entry.names[archive])
      modifies dir
      ensures Opened() && archive in dir.fs.names
    {
      var stat := dir.Lstat(candidate);
      if stat.Ok? && stat.value.ino == archiveStat.value.ino {
        ghost var before, history := dir.fs, dir.history;
        var removed := dir.UnlinkWithParentFsync(candidate, stat.value);
        KeptThroughout(history, before, candidate, archive);
        WithdrawingKeeps(before, dir.fs, candidate);
        if removed == Ok(true) {
          var _ := dir.Fsync();
        }
      }
    }

    /** Confirms that the link and the archive are the same inode. */
    method ConfirmBackup(candidate: Name) returns (r: Result<Stat>)
      requires dir.Valid() && archiveStat.Some?
      modifies dir`calls
      ensures r.Ok? ==> Bound(dir.fs, candidate, archiveStat.value.ino) && archive in dir.fs.names
      ensures r.Ok? ==> r.value == StatOf(dir.fs, archive) && r.value.ino == archiveStat.value.ino
      ensures Calm() && Bound(dir.fs, candidate, archiveStat.value.ino) && Bound(dir.fs, archive, archiveStat.value.ino)
                && StatOf(dir.fs, candidate).nlink >= 2
              ==> r.Ok?
    {
      var stat := dir.Lstat(candidate);
      if stat.Err? {
        return Err(stat.error);
      }
      var current := dir.Lstat(archive);
      if current.Err? {
        return current;
      }
      var same := stat.value.ino == archiveStat.value.ino && current.value.ino == archiveStat.value.ino;
      r := if same && stat.value.nlink >= 2 then current else Err(CheckFailed);
    }

    lemma LinkingKeeps(fs: FS, gs: FS, candidate: Name)
      requires WellFormed(fs) && SameData(entry, fs) && SourcesHome(fs) && HadArchive() && OldAt(fs, archive)
      requires candidate.Backup? && candidate !in fs.names && gs == Linked(fs, archive, candidate)
      ensures Kept(gs) && SourcesHome(gs) && OldAt(gs, archive) && OldAt(gs, candidate)
    {
      HomeIsKept(gs, archive);
    }

    method MakeLink(candidate: Name) returns (r: Result<()>)
      requires Opened() && HadArchive() && archiveStat.Some? && candidate.Backup? && Bound(dir.fs, archive, entry.names[archive])
      modifies dir
      ensures Opened() && Bound(dir.fs, archive, entry.names[archive])
      ensures r == Err(Exists) ==> dir.fs == old(dir.fs) && candidate in dir.fs.names
      ensures r.Ok? ==> candidate !in old(dir.fs).names && dir.fs == Linked(old(dir.fs), archive, candidate)
      ensures Calm() && candidate !in old(dir.fs).names ==> r.Ok?
    {
      r := dir.Link(archive, candidate);
      if candidate !in old(dir.fs).names && dir.fs == Linked(old(dir.fs), archive, candidate) {
        LinkingKeeps(old(dir.fs), dir.fs, candidate);
      }
    }

    lemma LinkingStills(fs: FS, gs: FS, candidate: Name)
      requires WellFormed(entry) && WellFormed(fs) && HadArchive() && Bound(fs, archive, entry.names[archive]) && SourcesStill(fs)
      requires Tidy() && gs == Linked(fs, archive, candidate) && candidate.Backup? && forall s | s in sources :: s.File? && s != archive
      ensures SourcesStill(gs)
    {
    }

    /** Links the archive to a backup name and confirms it. */
    method LinkBackup(candidate: Name) returns (r: Result<Stat>)
      requires Opened() && HadArchive() && archiveStat.Some? && candidate.Backup? && Bound(dir.fs, archive, entry.names[archive])
      modifies dir
      ensures Opened() && archive in dir.fs.names
      ensures r == Err(Exists) ==> dir.fs == old(dir.fs) && candidate in dir.fs.names
      ensures r.Ok? ==> candidate !in old(dir.fs).names && dir.fs == Linked(old(dir.fs), archive, candidate)
      ensures r.Ok? ==> r.value == StatOf(dir.fs, archive)
      ensures Tidy() && r.Ok? && SourcesStill(old(dir.fs)) ==> SourcesStill(dir.fs)
      ensures Calm() && candidate !in old(dir.fs).names && StatOf(old(dir.fs), archive).nlink >= 1 ==> r.Ok?
    {
      var linked := MakeLink(candidate);
      if linked.Err? {
        return Err(linked.error);
      }
      if Tidy() && SourcesStill(old(dir.fs)) {
        LinkingStills(old(dir.fs), dir.fs, candidate);
      }
      r := ConfirmOrWithdraw(candidate);
    }

    method ConfirmOrWithdraw(candidate: Name) returns (r: Result<Stat>)
      requires Opened() && HadArchive() && archiveStat.Some? && candidate.Backup? && Bound(dir.fs, archive, entry.names[archive])
      modifies dir
      ensures Opened() && archive in dir.fs.names && r != Err(Exists)
      ensures r.Ok? ==> dir.fs == old(dir.fs) && r.value == StatOf(dir.fs, archive)
      ensures Calm() && Bound(old(dir.fs), candidate, archiveStat.value.ino) && StatOf(old(dir.fs), candidate).nlink >= 2 ==> r.Ok?
    {
      r := ConfirmBackup(candidate);
      if r.Err? {
        WithdrawBackup(candidate);
        r := Err(if r.error == Exists then CheckFailed else r.error);
      }
    }

    /** Linked and still under its own name. */
    ghost predicate BackedUp()
      reads this, dir`fs, dir`history
    {
      Opened() && HadArchive() && archiveStat.Some? && Bound(dir.fs, archive, entry.names[archive]) && BackupHolds(dir.fs)
    }

    /** Unlinks the archive; its backup keeps the inode. */
    method UnlinkArchive(expected: Stat) returns (r: Result<bool>)
      requires BackedUp()
      modifies dir
      ensures Begun() && SourcesHome(dir.fs) && TempHolds(dir.fs) && BackupHolds(dir.fs)
      ensures Bound(dir.fs, archive, entry.names[archive]) || archive !in dir.fs.names
      ensures r == Ok(true) ==> dir.fs.names == old(dir.fs).names - {archive}
      ensures r.Ok? ==> r.value && dir.fs.inodes[entry.names[archive]].nlink == Less(expected.nlink)
      ensures Tidy() && SourcesStill(old(dir.fs)) ==> SourcesStill(dir.fs)
      ensures dir.FaultFree() && Unclaimed(old(dir.fs), archive) && StatOf(old(dir.fs), archive) == expected ==> r.Ok?
      ensures Jammed() && Unclaimed(old(dir.fs), archive) && StatOf(old(dir.fs), archive) == expected ==> r.Err? && archive !in dir.fs.names
    {
      ghost var before, history := dir.fs, dir.history;
      r := dir.UnlinkWithParentFsync(archive, expected);
      KeptThroughout(history, before, archive, backupName.value);
      KeptElsewhere(before, dir.fs, archive, backupName.value);
      assert Bound(dir.fs, tempName.value, archiveIno);
    }

    /** What a failure while moving the archive aside does: notes that the archive is gone, or
        takes the backup link back. */
    method NoteMissingArchive()
      requires Consistent() && active && rollbackSafe && TempHolds(dir.fs) && !activationAttempted && !backupMoved
      requires HadArchive() && archiveStat.Some? && BackupHolds(dir.fs)
      requires inspection == None
      modifies dir, this`backupMoved, this`inspection
      ensures Consistent() && active && rollbackSafe && Tracked()
      ensures inspection.Some? <==> archive !in old(dir.fs).names
      ensures inspection.Some? ==> inspection.value == Look(old(dir.calls), old(dir.fs))
      ensures Jammed() && archive !in old(dir.fs).names ==> Lost()
    {
      if archive !in dir.fs.names {
        inspection := Some(Look(dir.calls, dir.fs));
      }
      var stat := dir.Lstat(archive);
      if stat == Err(Missing) {
        backupMoved := true;
      } else if stat.Ok? {
        WithdrawBackup(backupName.value);
      }
    }

    /** Moves the archive out of the way, keeping its backup. */
    method MoveArchiveAside(expected: Stat) returns (r: Result<()>)
      requires BackedUp() && inspection == None
      modifies dir, this`backupMoved, this`inspection
      ensures Consistent() && active && rollbackSafe && r != Err(Exists) && Tracked()
      ensures inspection.Some? ==> r.Err? && archive !in inspection.value.fs.names
      ensures Jammed() && Unclaimed(old(dir.fs), archive) && StatOf(old(dir.fs), archive) == expected ==> r.Err? && Lost()
      ensures r.Ok? ==> backupMoved && TempHolds(dir.fs) && archive !in dir.fs.names
      ensures r.Ok? ==> dir.fs.names == old(dir.fs).names - {archive}
      ensures r.Ok? ==> dir.fs.inodes[entry.names[archive]].nlink == Less(expected.nlink)
      ensures Tidy() && r.Ok? && SourcesStill(old(dir.fs)) ==> SourcesStill(dir.fs)
      ensures dir.FaultFree() && Unclaimed(old(dir.fs), archive) && StatOf(old(dir.fs), archive) == expected ==> r.Ok?
    {
      var removed := UnlinkArchive(expected);
      if removed.Err? {
        NoteMissingArchive();
        return Err(if removed.error == Exists then CheckFailed else removed.error);
      }
      backupMoved := true;
      r := dir.Fsync();
    }

    ghost function LinksOfOld(fs: FS): int {
      if HadArchive() && entry.names[archive] in fs.inodes then fs.inodes[entry.names[archive]].nlink else -1
    }

    /** A free backup name, and an archive that is linked at all. */
    ghost predicate CanBackUp(fs: FS) {
      && (forall token: nat :: Backup(archive, token) !in fs.names) && NoClaims(fs)
      && (HadArchive() ==> Bound(fs, archive, entry.names[archive]) && entry.names[archive] in fs.inodes && fs.inodes[entry.names[archive]].nlink >= 1)
    }

    /** The names after the archive moved aside. */
    ghost predicate MovedNames(before: map<Name, Ino>, after: map<Name, Ino>)
      reads this`backupName
    {
      && archive !in after
      && (forall n | n in after :: n in before || Some(n) == backupName)
      && (forall n | n in before && n != archive :: n in after && after[n] == before[n])
    }

    lemma FreeBackup(fs: FS, candidate: Name)
      requires CanBackUp(fs) && candidate.Backup? && candidate.of == archive && HadArchive()
      ensures candidate !in fs.names && StatOf(fs, archive).nlink >= 1
      ensures Unclaimed(Linked(fs, archive, candidate), archive)
    {
    }

    method TryBackup(candidate: Name) returns (r: Result<()>)
      requires Opened() && HadArchive() && archiveStat.Some? && candidate.Backup? && candidate.of == archive
      requires Bound(dir.fs, archive, entry.names[archive]) && inspection == None
      modifies dir, this`backupName, this`backupMoved, this`inspection
      ensures Consistent() && active && rollbackSafe && Tracked()
      ensures r == Err(Exists) ==> Opened() && dir.fs == old(dir.fs) && candidate in dir.fs.names && inspection == None
      ensures Jammed() && CanBackUp(old(dir.fs)) ==> r.Err? && r != Err(Exists) && Lost()
      ensures r.Ok? ==> backupMoved && TempHolds(dir.fs) && archive !in dir.fs.names
      ensures r.Ok? ==> MovedNames(old(dir.fs).names, dir.fs.names) && backupName.value.Backup?
      ensures r.Ok? ==> LinksOfOld(dir.fs) == LinksOfOld(old(dir.fs))
      ensures Tidy() && r.Ok? && SourcesStill(old(dir.fs)) ==> SourcesStill(dir.fs)
      ensures dir.FaultFree() && CanBackUp(old(dir.fs)) ==> r.Ok?
    {
      if CanBackUp(dir.fs) {
        FreeBackup(dir.fs, candidate);
      }
      var linked := LinkBackup(candidate);
      if linked.Err? {
        return Err(linked.error);
      }
      r := SetAside(candidate, linked.value, old(dir.fs));
    }

    /** The link is the backup now. */
    method SetAside(candidate: Name, expected: Stat, ghost before: FS) returns (r: Result<()>)
      requires Opened() && HadArchive() && archiveStat.Some? && candidate.Backup? && Bound(dir.fs, archive, entry.names[archive])
      requires archive in before.names && before.names[archive] in before.inodes && candidate !in before.names
      requires dir.fs == Linked(before, archive, candidate) && inspection == None
      modifies dir, this`backupName, this`backupMoved, this`inspection
      ensures Consistent() && active && rollbackSafe && r != Err(Exists) && Tracked()
      ensures Jammed() && Unclaimed(old(dir.fs), archive) && StatOf(old(dir.fs), archive) == expected ==> r.Err? && Lost()
      ensures r.Ok? ==> backupMoved && TempHolds(dir.fs) && archive !in dir.fs.names && backupName.value.Backup?
      ensures r.Ok? ==> MovedNames(before.names, dir.fs.names)
      ensures r.Ok? ==> dir.fs.inodes[entry.names[archive]].nlink == Less(expected.nlink)
      ensures Tidy() && r.Ok? && SourcesStill(old(dir.fs)) ==> SourcesStill(dir.fs)
      ensures dir.FaultFree() && Unclaimed(old(dir.fs), archive) && StatOf(old(dir.fs), archive) == expected ==> r.Ok?
    {
      backupName := Some(candidate);
      r := MoveArchiveAside(expected);
      if r.Ok? {
        AsideNames(before, old(dir.fs), dir.fs, candidate);
      }
    }

    lemma AsideNames(before: FS, both: FS, after: FS, candidate: Name)
      requires archive in before.names && before.names[archive] in before.inodes && both == Linked(before, archive, candidate)
      requires candidate != archive && candidate !in before.names && after.names == both.names - {archive} && backupName == Some(candidate)
      ensures MovedNames(before.names, after.names)
    {
    }

    /** `archive.exists()` and what follows from it. */
    method BackUpArchive() returns (r: Result<()>)
      requires Opened() && archiveStat == None && OldAt(dir.fs, archive) && inspection == None
      modifies dir, this`archiveStat, this`backupName, this`backupMoved, this`inspection
      ensures Consistent() && active && rollbackSafe && Tracked()
      ensures Jammed() && CanBackUp(old(dir.fs)) && StatOf(old(dir.fs), archive).nlink == 1 ==> r.Err? && Lost()
      ensures r.Ok? ==> (backupMoved <==> HadArchive()) && TempHolds(dir.fs) && archive !in dir.fs.names
      ensures r.Ok? && HadArchive() ==> MovedNames(old(dir.fs).names, dir.fs.names) && backupName.value.Backup?
      ensures r.Ok? && HadArchive() ==> LinksOfOld(dir.fs) == LinksOfOld(old(dir.fs))
      ensures r.Ok? && !HadArchive() ==> dir.fs == old(dir.fs)
      ensures Tidy() && r.Ok? && SourcesStill(old(dir.fs)) ==> SourcesStill(dir.fs)
      ensures dir.FaultFree() && CanBackUp(old(dir.fs)) && (HadArchive() ==> StatOf(old(dir.fs), archive).nlink == 1) ==> r.Ok?
    {
      var stat := dir.Lstat(archive);
      if stat == Err(Missing) {
        return Ok(());
      }
      if stat.Err? {
        return Err(stat.error);
      }
      if stat.value.nlink != 1 {
        return Err(CheckFailed);
      }
      archiveStat := Some(stat.value);
      for attempt := 0 to 100
        invariant Opened() && HadArchive() && archiveStat.Some? && Bound(dir.fs, archive, entry.names[archive]) && dir.fs == old(dir.fs)
        invariant CanBackUp(old(dir.fs)) ==> attempt == 0
        invariant inspection == None
      {
        var token := dir.Token();
        r := TryBackup(Backup(archive, token));
        if r != Err(Exists) {
          return;
        }
      }
      r := Err(CheckFailed);
    }

    /* ---------- Activation ---------- */

    lemma ActivatingKeeps(fs: FS, gs: FS, temp: Name, keeper: Name)
      requires WellFormed(fs) && SameData(entry, fs) && SourcesHome(fs) && OldAt(fs, keeper)
      requires keeper != temp && temp.Temp? && Bound(fs, temp, archiveIno) && archiveIno in fs.inodes && gs == Renamed(fs, temp, archive)
      requires archive !in fs.names && archive.File? && forall s | s in sources :: s.File?
      ensures Kept(gs) && SourcesHome(gs) && OldAt(gs, keeper)
    {
      HomeIsKept(gs, keeper);
    }

    /** The names after the archive took its place. */
    ghost predicate ActivatedNames(before: map<Name, Ino>, after: map<Name, Ino>, temp: Name) {
      && archive in after && after[archive] == archiveIno
      && (forall n | n in after && n != archive :: n in before && n != temp && after[n] == before[n])
      && (forall n | n in before && n != temp :: n in after)
    }

    /** Renames the temporary archive into place. */
    method ActivateArchive() returns (r: Result<()>)
      requires Consistent() && active && rollbackSafe && !activationAttempted && TempHolds(dir.fs) && archive !in dir.fs.names
      requires backupMoved <==> HadArchive()
      modifies dir, this`tempName, this`activationStat, this`activationAttempted
      ensures Consistent() && active && rollbackSafe && (tempName == None || tempName == old(tempName))
      ensures old(activationStat).Some? ==> activationStat.Some?
      ensures r.Ok? ==> ArchiveInPlace(dir.fs) && activationAttempted && tempName == None && (HadArchive() ==> BackupHolds(dir.fs))
      ensures r.Ok? ==> ActivatedNames(old(dir.fs).names, dir.fs.names, old(tempName).value)
      ensures r.Ok? ==> LinksOfOld(dir.fs) == LinksOfOld(old(dir.fs))
      ensures Tidy() && r.Ok? && SourcesStill(old(dir.fs)) ==> SourcesStill(dir.fs)
      ensures dir.FaultFree() ==> r.Ok?
    {
      r := RenameIntoPlace();
      activationAttempted := true;
      if r.Err? {
        return;
      }
      r := SettleActivation();
    }

    /** The archive has its name, and no scratch name any more. */
    method SettleActivation() returns (r: Result<()>)
      requires Consistent() && active && rollbackSafe && activationAttempted && ArchiveInPlace(dir.fs)
      modifies dir`calls, this`tempName, this`activationStat
      ensures Consistent() && tempName == None && (old(activationStat).Some? ==> activationStat.Some?)
      ensures dir.FaultFree() ==> r.Ok?
    {
      tempName := None;
      r := NoteActivation();
    }

    /** Notes the identity of the new archive and syncs the directory. */
    method NoteActivation() returns (r: Result<()>)
      requires dir.Valid() && Bound(dir.fs, archive, archiveIno)
      modifies dir`calls, this`activationStat
      ensures activationStat == old(activationStat) || (activationStat.Some? && activationStat.value.ino == archiveIno)
      ensures dir.FaultFree() ==> r.Ok?
    {
      var stat := dir.Lstat(archive);
      if stat.Err? {
        return Err(stat.error);
      }
      activationStat := Some(stat.value);
      r := dir.Fsync();
    }

    method RenameIntoPlace() returns (r: Result<()>)
      requires Consistent() && active && rollbackSafe && !activationAttempted && TempHolds(dir.fs) && archive !in dir.fs.names
      requires backupMoved <==> HadArchive()
      modifies dir
      ensures Begun() && SourcesHome(dir.fs) && ArchiveReady(dir.fs) && (HadArchive() ==> BackupHolds(dir.fs))
      ensures archive !in dir.fs.names || Bound(dir.fs, archive, archiveIno)
      ensures r.Ok? ==> ActivatedNames(old(dir.fs).names, dir.fs.names, tempName.value)
      ensures r.Ok? ==> LinksOfOld(dir.fs) == LinksOfOld(old(dir.fs))
      ensures Tidy() && r.Ok? && SourcesStill(old(dir.fs)) ==> SourcesStill(dir.fs)
      ensures dir.FaultFree() ==> r.Ok?
    {
      r := dir.RenameWithoutReplacing(tempName.value, archive);
      if dir.fs == Renamed(old(dir.fs), tempName.value, archive) {
        ActivatingKeeps(old(dir.fs), dir.fs, tempName.value, if HadArchive() then backupName.value else archive);
      }
    }

    /* ---------- Removing the sources ---------- */

    /** The archive is in place and the merge still open. */
    ghost predicate Removing()
      reads this, dir`fs, dir`history
    {
      && Consistent() && active && ArchiveInPlace(dir.fs) && activationAttempted && StatsNoted()
      && archiveIno in dir.fs.inodes
    }

    /** Only what concerns one source changed: other settled names and inodes are as before. */
    ghost predicate OnlySource(fs: FS, gs: FS, path: Name) {
      && (forall m | m in fs.names && m != path && (m.File? || m.Backup?) :: Bound(gs, m, fs.names[m]))
      && (forall i | i in fs.inodes && !Bound(fs, path, i) :: i in gs.inodes && gs.inodes[i] == fs.inodes[i])
      && (forall m | m in gs.names && m.File? :: m in fs.names)
    }

    /** One call on a name that belongs to a source, with the archive in place. */
    method UnlinkName(n: Name, expected: Stat) returns (r: Result<bool>)
      requires Begun() && ArchiveInPlace(dir.fs) && n != archive
      modifies dir
      ensures Begun() && ArchiveInPlace(dir.fs) && OnlyAffects(old(dir.fs), dir.fs, n)
      ensures r == Ok(false) ==> dir.fs == old(dir.fs)
      ensures r == Ok(true) ==> dir.fs.names == old(dir.fs).names - {n}
      ensures n !in old(dir.fs).names ==> dir.fs == old(dir.fs)
      ensures r.Ok? && n in old(dir.fs).names ==> r.value
      ensures dir.FaultFree() && n in old(dir.fs).names && Unclaimed(old(dir.fs), n) && StatOf(old(dir.fs), n) == expected
              ==> r.Ok? && r.value
    {
      ghost var before, history := dir.fs, dir.history;
      r := dir.UnlinkWithParentFsync(n, expected);
      ArchiveThroughout(history, before, n);
      ArchiveStaysInPlace(before, dir.fs, n);
    }

    /** Moves a source to a quarantine name. */
    method Quarantine(path: Name, quarantine: Name) returns (r: Result<()>)
      requires Begun() && ArchiveInPlace(dir.fs) && path != archive && quarantine.Merged?
      modifies dir
      ensures Begun() && ArchiveInPlace(dir.fs)
      ensures dir.fs == old(dir.fs) || (path in old(dir.fs).names && dir.fs == Renamed(old(dir.fs), path, quarantine))
      ensures r.Ok? ==> path in old(dir.fs).names && dir.fs == Renamed(old(dir.fs), path, quarantine)
    {
      r := dir.RenameWithoutReplacing(path, quarantine);
      SameDataTrans(entry, old(dir.fs), dir.fs);
    }

    /** The path, if it is still bound, still leads to its inode. */
    ghost predicate PathHeld(fs: FS, gs: FS, path: Name) {
      path in gs.names ==> Bound(fs, path, gs.names[path])
    }

    lemma OnlySourceAffects(fs: FS, gs: FS, hs: FS, path: Name, n: Name)
      requires OnlySource(fs, gs, path) && PathHeld(fs, gs, path) && OnlyAffects(gs, hs, n) && path.File?
      requires n == path || n.Merged?
      requires n in gs.names ==> Bound(fs, path, gs.names[n])
      ensures OnlySource(fs, hs, path) && PathHeld(fs, hs, path)
    {
    }

    lemma OnlySourceRenamed(fs: FS, gs: FS, path: Name, q: Name)
      requires OnlySource(fs, gs, path) && PathHeld(fs, gs, path) && q.Merged? && path.File?
      requires path in gs.names && gs.names[path] in gs.inodes
      ensures OnlySource(fs, Renamed(gs, path, q), path) && PathHeld(fs, Renamed(gs, path, q), path)
      ensures Bound(fs, path, Renamed(gs, path, q).names[q])
    {
    }

    /** What the removal of one source keeps. */
    ghost predicate Removes(fs: FS, path: Name)
      reads this, dir`fs, dir`history
    {
      && Begun() && active && activationAttempted && TempIsScratch() && Noted() && StatsNoted()
      && ArchiveInPlace(dir.fs) && archiveIno in dir.fs.inodes
      && OnlySource(fs, dir.fs, path) && PathHeld(fs, dir.fs, path)
    }

    /** Moves the source to a quarantine name and looks at it there. */
    method QuarantineSource(path: Name, quarantine: Name, original: Stat, ghost fs: FS) returns (q: Quarantined)
      requires Removes(fs, path) && path.File? && path != archive && quarantine.Merged?
      modifies dir, this`rollbackSafe
      ensures Removes(fs, path) && (rollbackSafe ==> old(rollbackSafe))
      ensures q.Moved? ==> !rollbackSafe && path !in dir.fs.names && Bound(dir.fs, quarantine, q.stat.ino) && Bound(fs, path, q.stat.ino)
    {
      var moved := Quarantine(path, quarantine);
      if dir.fs != old(dir.fs) {
        OnlySourceRenamed(fs, old(dir.fs), path, quarantine);
      }
      if moved.Err? {
        if IsOsError(moved.error) {
          return OsError;
        }
        return Interrupted;
      }
      OnlySourceRenamed(fs, old(dir.fs), path, quarantine);
      rollbackSafe := false;
      q := InspectQuarantined(quarantine, original);
    }

    /** Looks at a source under its quarantine name. */
    method InspectQuarantined(quarantine: Name, original: Stat) returns (q: Quarantined)
      requires dir.Valid()
      modifies dir`calls
      ensures q.Moved? ==> Bound(dir.fs, quarantine, q.stat.ino)
    {
      var synced := dir.Fsync();
      if synced.Err? {
        return if IsOsError(synced.error) then OsError else Interrupted;
      }
      var stat := dir.Lstat(quarantine);
      if stat.Err? {
        return if IsOsError(stat.error) then OsError else Interrupted;
      }
      if stat.value.nlink != 1 || !Matches(stat.value, original, true) {
        return CheckError;
      }
      q := Moved(stat.value);
    }

    /** After a failed quarantine: a rollback stays safe only if the source is seen at home. */
    method SettleSource(path: Name, original: Stat, deleteError: Error) returns (removal: Removal)
      requires dir.Valid()
      modifies dir`calls, this`rollbackSafe
      ensures rollbackSafe ==> old(rollbackSafe) && Bound(dir.fs, path, original.ino)
      ensures !removal.Removed? && (removal.NotedError? ==> !rollbackSafe)
    {
      var current := dir.Lstat(path);
      if current.Err? || current.value.nlink != 1 || !Matches(current.value, original, true) {
        rollbackSafe := false;
      }
      if IsOsError(deleteError) {
        return RaiseWith(deleteError);
      }
      removal := if rollbackSafe then StopWith(deleteError) else NotedError(deleteError);
    }

    /** Removes a quarantined source for good, or leaves it there. */
    method RemoveQuarantined(path: Name, quarantine: Name, stat: Stat, deleteError: Error, ghost fs: FS) returns (removal: Removal)
      requires Removes(fs, path) && path.File? && quarantine.Merged? && !rollbackSafe && path !in dir.fs.names
      requires Bound(dir.fs, quarantine, stat.ino) && Bound(fs, path, stat.ino)
      modifies dir
      ensures Removes(fs, path) && path !in dir.fs.names
    {
      var removed := UnlinkName(quarantine, stat);
      OnlySourceAffects(fs, old(dir.fs), dir.fs, path, quarantine);
      if removed.Ok? {
        var synced := dir.Fsync();
        if synced.Err? {
          removed := Err(synced.error);
        }
      }
      if removed.Err? && removed.error == CheckFailed {
        return RaiseWith(CheckFailed);
      }
      // An archive that already holds the source makes a left-over copy harmless.
      removal := if IsOsError(deleteError) && (removed.Ok? || IsOsError(removed.error)) then Removed else NotedError(deleteError);
    }

    /** The handler for a source that could not be unlinked. */
    method HandleDeleteError(path: Name, original: Stat, deleteError: Error, ghost fs: FS) returns (removal: Removal)
      requires Removes(fs, path) && path.File? && path != archive
      modifies dir, this`rollbackSafe
      ensures Removes(fs, path)
      ensures rollbackSafe ==> old(rollbackSafe) && Bound(dir.fs, path, original.ino)
      ensures rollbackSafe ==> removal.StopWith? || removal.RaiseWith?
      ensures removal.Removed? ==> path !in dir.fs.names
    {
      var token := dir.Token();
      var quarantine := Merged(path, token);
      var q := QuarantineSource(path, quarantine, original, fs);
      removal := EndQuarantine(path, quarantine, q, original, deleteError, fs);
    }

    /** What follows from the quarantine of a source. */
    method EndQuarantine(path: Name, quarantine: Name, q: Quarantined, original: Stat, deleteError: Error, ghost fs: FS) returns (removal: Removal)
      requires Removes(fs, path) && path.File? && path != archive && quarantine.Merged?
      requires q.Moved? ==> !rollbackSafe && path !in dir.fs.names && Bound(dir.fs, quarantine, q.stat.ino) && Bound(fs, path, q.stat.ino)
      modifies dir, this`rollbackSafe
      ensures Removes(fs, path)
      ensures rollbackSafe ==> old(rollbackSafe) && Bound(dir.fs, path, original.ino)
      ensures rollbackSafe ==> removal.StopWith? || removal.RaiseWith?
      ensures removal.Removed? ==> path !in dir.fs.names
    {
      match q {
        case OsError =>
          removal := SettleSource(path, original, deleteError);
        case CheckError =>
          rollbackSafe := false;
          removal := RaiseWith(CheckFailed);
        case Interrupted =>
          rollbackSafe := false;
          removal := NotedError(deleteError);
        case Moved(stat) =>
          removal := RemoveQuarantined(path, quarantine, stat, deleteError, fs);
      }
    }

    /** The source is still exactly the noted file. */
    method AssertSameIdentity(path: Name, original: Stat) returns (r: Result<()>)
      requires dir.Valid()
      modifies dir`calls
      ensures r.Ok? ==> path in dir.fs.names && StatOf(dir.fs, path) == original
      ensures dir.FaultFree() && path in dir.fs.names && StatOf(dir.fs, path) == original && original.nlink == 1 ==> r.Ok?
    {
      var stat := dir.Lstat(path);
      if stat.Err? {
        return Err(stat.error);
      }
      r := if stat.value == original && stat.value.nlink == 1 then Ok(()) else Err(CheckFailed);
    }

    /** Unlinks one source; the second check belongs to the protected part. */
    method UnlinkSource(path: Name, original: Stat, ghost fs: FS) returns (r: Result<()>)
      requires Removes(fs, path) && path.File? && path != archive && fs == dir.fs
      modifies dir
      ensures Removes(fs, path)
      ensures r.Ok? ==> dir.fs.names == old(dir.fs).names - {path}
      ensures dir.FaultFree() && path in fs.names && Unclaimed(fs, path) && StatOf(fs, path) == original && original.nlink == 1 ==> r.Ok?
    {
      r := AssertSameIdentity(path, original);
      if r.Err? {
        return;
      }
      var removed := UnlinkName(path, original);
      OnlySourceAffects(fs, old(dir.fs), dir.fs, path, path);
      if removed.Err? {
        return Err(removed.error);
      }
      r := if removed.value then Ok(()) else Err(CheckFailed);
    }

    /** Removes one source whose text the archive holds. */
    method RemoveSource(path: Name, original: Stat) returns (removal: Removal)
      requires Removes(dir.fs, path) && path.File? && path != archive
      modifies dir, this`rollbackSafe
      ensures Removes(old(dir.fs), path)
      ensures rollbackSafe ==> old(rollbackSafe) && Bound(dir.fs, path, original.ino)
      ensures rollbackSafe ==> removal.StopWith? || removal.RaiseWith?
      ensures removal.Removed? ==> path !in dir.fs.names
      ensures dir.FaultFree() && path in old(dir.fs).names && Unclaimed(old(dir.fs), path) && StatOf(old(dir.fs), path) == original
                && original.nlink == 1
              ==> removal.Removed? && dir.fs.names == old(dir.fs).names - {path}
    {
      ghost var fs := dir.fs;
      var same := AssertSameIdentity(path, original);
      if same.Err? {
        rollbackSafe := false;
        return NotedError(same.error);
      }
      removal := RemoveSame(path, original, fs);
    }

    /** Removes a source that was just seen to be the noted file. */
    method RemoveSame(path: Name, original: Stat, ghost fs: FS) returns (removal: Removal)
      requires Removes(fs, path) && path.File? && path != archive && fs == dir.fs
      modifies dir, this`rollbackSafe
      ensures Removes(fs, path)
      ensures rollbackSafe ==> old(rollbackSafe) && Bound(dir.fs, path, original.ino)
      ensures rollbackSafe ==> removal.StopWith? || removal.RaiseWith?
      ensures removal.Removed? ==> path !in dir.fs.names
      ensures dir.FaultFree() && path in fs.names && Unclaimed(fs, path) && StatOf(fs, path) == original && original.nlink == 1
              ==> removal.Removed? && dir.fs.names == fs.names - {path}
    {
      var unlinked := UnlinkSource(path, original, fs);
      if unlinked.Err? {
        removal := HandleDeleteError(path, original, unlinked.error, fs);
      } else {
        removal := SyncRemoval(path, fs);
      }
    }

    /** The source is gone, and with it the way back. */
    method SyncRemoval(path: Name, ghost fs: FS) returns (removal: Removal)
      requires Removes(fs, path) && path !in dir.fs.names
      modifies dir`calls, this`rollbackSafe
      ensures Removes(fs, path) && !rollbackSafe
      ensures dir.FaultFree() ==> removal.Removed?
    {
      rollbackSafe := false;
      var synced := dir.Fsync();
      removal := if synced.Ok? then Removed else NotedError(synced.error);
    }

    /** The archive is in place; a rollback is safe only while every source is home. */
    ghost predicate Cleaning()
      reads this, dir`fs, dir`history
    {
      && Begun() && active && activationAttempted && TempIsScratch() && Noted() && StatsNoted()
      && ArchiveInPlace(dir.fs) && archiveIno in dir.fs.inodes && (HadArchive() ==> backupMoved && BackupHolds(dir.fs))
      && (rollbackSafe ==> SourcesHome(dir.fs) && dir.fs.inodes[archiveIno].nlink == 1)
    }

    /** One more source: what is known of the others stays. */
    lemma OthersStay(fs: FS, gs: FS, path: Name, done: nat)
      requires OnlySource(fs, gs, path) && done < |sources| && sources[done] == path
      requires forall s | s in sources :: s.File? && s in entry.names
      requires forall i, j | 0 <= i < j < |sources| :: sources[i] != sources[j]
      requires forall i, j | 0 <= i < j < |sources| :: entry.names[sources[i]] != entry.names[sources[j]]
      requires forall k | done <= k < |sources| :: StillNoted(fs, k)
      ensures forall k | done < k < |sources| :: StillNoted(gs, k)
    {
      forall k | done < k < |sources| ensures StillNoted(gs, k) {
        assert StillNoted(fs, k) && StillNoted(fs, done);
      }
    }

    ghost predicate StillNoted(fs: FS, k: nat)
      requires k < |sources|
    {
      && sources[k] in entry.names && entry.names[sources[k]] in entry.inodes && Bound(fs, sources[k], entry.names[sources[k]])
      && entry.names[sources[k]] in fs.inodes && fs.inodes[entry.names[sources[k]]] == entry.inodes[entry.names[sources[k]]]
    }

    /** No call fails, and what is left to remove is as it was noted. */
    ghost predicate Clean(before: map<Name, Ino>, n: nat)
      requires WellFormed(entry) && n <= |sources|
      reads dir`fs
    {
      && dir.FaultFree() && Tidy() && NoClaims(dir.fs) && RemovedNames(before, dir.fs.names, n)
      && (HadArchive() ==> LinksOfOld(dir.fs) == 1)
      && forall k | n <= k < |sources| :: StillNoted(dir.fs, k)
    }

    /** The first `n` sources are gone. */
    ghost predicate Gone(fs: FS, n: nat)
      requires n <= |sources|
    {
      forall k | 0 <= k < n :: sources[k] !in fs.names
    }

    lemma GoneNext(fs: FS, gs: FS, i: nat)
      requires i < |sources| && OnlySource(fs, gs, sources[i]) && forall s | s in sources :: s.File?
      ensures sources[i] !in gs.names && Gone(fs, i) ==> Gone(gs, i + 1)
    {
      assert forall k | 0 <= k < i :: sources[k] in sources;
    }

    /** One turn of the loop over the sources. */
    method RemoveNext(i: nat, ghost before: map<Name, Ino>) returns (removal: Removal)
      requires Cleaning() && i < |sources| && sources[i] in sourceStats
      modifies dir, this`rollbackSafe
      ensures Cleaning() && (rollbackSafe ==> old(rollbackSafe))
      ensures rollbackSafe ==> removal.StopWith? || removal.RaiseWith?
      ensures removal.Removed? && Gone(old(dir.fs), i) ==> Gone(dir.fs, i + 1)
      ensures old(Clean(before, i)) ==> removal.Removed? && Clean(before, i + 1)
    {
      ghost var fs := dir.fs;
      assert old(Clean(before, i)) ==> StillNoted(fs, i);
      removal := RemoveOne(i);
      if old(Clean(before, i)) {
        CleanNext(before, fs, i);
      }
    }

    method RemoveOne(i: nat) returns (removal: Removal)
      requires Cleaning() && i < |sources| && sources[i] in sourceStats
      modifies dir, this`rollbackSafe
      ensures Cleaning() && (rollbackSafe ==> old(rollbackSafe)) && OnlySource(old(dir.fs), dir.fs, sources[i])
      ensures rollbackSafe ==> removal.StopWith? || removal.RaiseWith?
      ensures removal.Removed? && Gone(old(dir.fs), i) ==> Gone(dir.fs, i + 1)
      ensures dir.FaultFree() && sources[i] in old(dir.fs).names && Unclaimed(old(dir.fs), sources[i])
                && StatOf(old(dir.fs), sources[i]) == sourceStats[sources[i]] && sourceStats[sources[i]].nlink == 1
              ==> removal.Removed? && dir.fs.names == old(dir.fs).names - {sources[i]}
    {
      ghost var fs := dir.fs;
      removal := RemoveSource(sources[i], sourceStats[sources[i]]);
      SourceDone(fs, sources[i]);
      GoneNext(fs, dir.fs, i);
    }

    lemma CleanNext(before: map<Name, Ino>, fs: FS, i: nat)
      requires WellFormed(entry) && archive.File? && i < |sources| && forall s | s in sources :: s.File? && s != archive && s in entry.names
      requires dir.FaultFree() && Tidy() && NoClaims(fs) && RemovedNames(before, fs.names, i) && (HadArchive() ==> LinksOfOld(fs) == 1)
      requires forall k | i <= k < |sources| :: StillNoted(fs, k)
      requires OnlySource(fs, dir.fs, sources[i]) && dir.fs.names == fs.names - {sources[i]}
      ensures Clean(before, i + 1)
    {
      TidySourcesDiffer();
      assert StillNoted(fs, i);
      OthersStay(fs, dir.fs, sources[i], i);
      RemovedNext(before, fs.names, dir.fs.names, i);
    }

    /** The loop over the sources: the errors it noted, or the one it raised.  Without any, all
        sources are gone and there is no way back. */
    method RemoveSources() returns (errors: seq<Error>, raised: Option<Error>)
      requires Cleaning() && (forall s | s in sources :: s in sourceStats)
      modifies dir, this`rollbackSafe
      ensures Cleaning()
      ensures raised.None? && errors == [] ==> !rollbackSafe && Gone(dir.fs, |sources|)
      ensures old(Clean(dir.fs.names, 0)) ==> raised.None? && errors == [] && Clean(old(dir.fs).names, |sources|)
    {
      errors, raised := [], None;
      ghost var names := dir.fs.names;
      for i := 0 to |sources|
        invariant Cleaning()
        invariant |errors| == 0 && i > 0 ==> !rollbackSafe
        invariant |errors| == 0 ==> Gone(dir.fs, i)
        invariant old(Clean(dir.fs.names, 0)) ==> |errors| == 0 && Clean(names, i)
      {
        assert sources[i] in sources;
        var removal := RemoveNext(i, names);
        match removal {
          case Removed =>
          case NotedError(e) => errors := errors + [e];
          case StopWith(e) => return errors + [e], None;
          case RaiseWith(e) => return errors, Some(e);
        }
      }
    }

    /** Whatever one removal did, the merge is still in its cleaning state. */
    lemma SourceDone(before: FS, path: Name)
      requires Removes(before, path) && path in sources
      requires HadArchive() ==> backupMoved && backupName.Some? && backupName.value.Backup?
      requires HadArchive() ==> Bound(before, backupName.value, entry.names[archive])
      requires rollbackSafe ==> SourcesHome(before) && Bound(dir.fs, path, entry.names[path])
      requires rollbackSafe ==> archiveIno in before.inodes && !Bound(before, path, archiveIno) && before.inodes[archiveIno].nlink == 1
      ensures Cleaning()
    {
    }

    /** Exactly the first `n` sources are gone. */
    ghost predicate RemovedNames(before: map<Name, Ino>, after: map<Name, Ino>, n: nat)
      requires n <= |sources|
    {
      && (forall m | m in after :: m in before && after[m] == before[m] && m !in sources[..n])
      && (forall m | m in before && m !in sources[..n] :: m in after)
    }

    lemma RemovedNext(before: map<Name, Ino>, now: map<Name, Ino>, after: map<Name, Ino>, n: nat)
      requires n < |sources| && RemovedNames(before, now, n)
      ensures after == now - {sources[n]} ==> RemovedNames(before, after, n + 1)
    {
      assert sources[..n + 1] == sources[..n] + [sources[n]];
    }

    lemma TidySourcesDiffer()
      requires WellFormed(entry) && forall s | s in sources :: s in entry.names
      ensures Tidy() ==> forall i, j | 0 <= i < j < |sources| :: sources[i] != sources[j] && entry.names[sources[i]] != entry.names[sources[j]]
    {
    }

    /* ---------- The end of the merge, and its rollback ---------- */

    /** Removes the backup; with the archive in place this cannot lose anything. */
    method DropBackup() returns (r: Result<()>)
      requires Cleaning() && !rollbackSafe
      modifies dir, this`active
      ensures Consistent() && !rollbackSafe && ArchiveInPlace(dir.fs)
      ensures forall m | m in dir.fs.names && m.File? :: m in old(dir.fs).names
      ensures r.Ok? ==> !active
      ensures dir.FaultFree() && NoClaims(old(dir.fs)) && (HadArchive() ==> LinksOfOld(old(dir.fs)) == 1)
              ==> r.Ok? && dir.fs.names == if HadArchive() then old(dir.fs).names - {backupName.value} else old(dir.fs).names
    {
      r := Ok(());
      if backupMoved && backupName.Some? {
        r := RemoveBackup();
        if r.Err? {
          return;
        }
      }
      active := false;
    }

    method RemoveBackup() returns (r: Result<()>)
      requires Cleaning() && !rollbackSafe && backupMoved
      modifies dir
      ensures Consistent() && ArchiveInPlace(dir.fs)
      ensures forall m | m in dir.fs.names && m.File? :: m in old(dir.fs).names
      ensures dir.FaultFree() && HadArchive() && NoClaims(old(dir.fs)) && LinksOfOld(old(dir.fs)) == 1
              ==> r.Ok? && dir.fs.names == old(dir.fs).names - {backupName.value}
    {
      var stat := dir.Lstat(backupName.value);
      if stat.Err? {
        return Err(stat.error);
      }
      if stat.value.nlink != 1 || stat.value.ino != archiveStat.value.ino {
        return Err(CheckFailed);
      }
      var removed := UnlinkName(backupName.value, stat.value);
      r := if removed.Ok? then Ok(()) else Err(removed.error);
    }

    /** The archive's name is bound exactly as when the merge began. */
    ghost predicate ArchiveAsOnEntry(fs: FS) {
      if HadArchive() then Bound(fs, archive, entry.names[archive]) else archive !in fs.names
    }

    /** Takes the new archive out again, but only if it is the one that was put there. */
    method RemoveActivated() returns (r: Result<()>)
      requires Consistent() && active && rollbackSafe && activationAttempted
      modifies dir
      ensures Begun() && SourcesHome(dir.fs) && (HadArchive() ==> BackupHolds(dir.fs))
      ensures r.Ok? && activationStat.Some? ==> archive !in dir.fs.names
    {
      if activationStat.None? {
        return Ok(());
      }
      var current := dir.Lstat(archive);
      if current.Err? {
        return if current.error == Missing then Ok(()) else Err(current.error);
      }
      if !Matches(current.value, activationStat.value, true) {
        return Err(CheckFailed);
      }
      r := UnlinkActivated();
    }

    method UnlinkActivated() returns (r: Result<()>)
      requires Consistent() && active && rollbackSafe && activationAttempted && activationStat.Some? && archive in dir.fs.names
      modifies dir
      ensures Begun() && SourcesHome(dir.fs) && (HadArchive() ==> BackupHolds(dir.fs))
      ensures r.Ok? ==> archive !in dir.fs.names
    {
      ghost var before, history := dir.fs, dir.history;
      ghost var keeper := if HadArchive() then backupName.value else archive;
      var removed := dir.UnlinkWithParentFsync(archive, activationStat.value);
      KeptThroughout(history, before, archive, keeper);
      KeptElsewhere(before, dir.fs, archive, keeper);
      if removed.Err? {
        return Err(removed.error);
      }
      if !removed.value {
        return Err(CheckFailed);
      }
      r := dir.Fsync();
    }

    /** Puts the old archive back from its backup; the name must be free. */
    method RestoreBackup() returns (r: Result<()>)
      requires Begun() && SourcesHome(dir.fs) && BackupHolds(dir.fs) && archiveStat.Some?
      modifies dir
      ensures Begun() && SourcesHome(dir.fs)
      ensures r.Ok? ==> ArchiveAsOnEntry(dir.fs)
    {
      var stat := dir.Lstat(archive);
      if stat.Ok? {
        return Err(CheckFailed);
      }
      if stat.error != Missing {
        return Err(stat.error);
      }
      var backup := dir.Lstat(backupName.value);
      if backup.Err? {
        return Err(backup.error);
      }
      if backup.value.nlink != 1 || backup.value.ino != archiveStat.value.ino {
        return Err(CheckFailed);
      }
      r := RenameBackup();
    }

    method RenameBackup() returns (r: Result<()>)
      requires Begun() && SourcesHome(dir.fs) && BackupHolds(dir.fs) && archive !in dir.fs.names
      modifies dir
      ensures Begun() && SourcesHome(dir.fs)
      ensures r.Ok? ==> ArchiveAsOnEntry(dir.fs)
    {
      ghost var before := dir.fs;
      r := dir.RenameWithoutReplacing(backupName.value, archive);
      SameDataTrans(entry, before, dir.fs);
      HomeIsKept(dir.fs, if archive in dir.fs.names then archive else backupName.value);
      if r.Err? {
        return;
      }
      r := dir.Fsync();
    }

    /** Undoes an active merge while no source was removed.  When it returns normally the sources
        are home, and the archive's name is bound as on entry unless moving it aside failed in a
        way that could not be inspected: then the old archive is under its backup name. */
    method Rollback() returns (r: Result<()>)
      requires Consistent() && active && rollbackSafe && activationStat.Some?
      modifies dir
      ensures Begun() && SourcesHome(dir.fs)
      ensures r.Ok? ==> (ArchiveAsOnEntry(dir.fs) <==> !HadArchive() || backupMoved || archive in old(dir.fs).names)
      ensures r.Ok? && !ArchiveAsOnEntry(dir.fs) ==> archive !in dir.fs.names && BackupHolds(dir.fs)
      ensures !activationAttempted && !backupMoved ==> r.Ok? && dir.fs == old(dir.fs)
    {
      if activationAttempted {
        r := RemoveActivated();
        if r.Err? {
          return;
        }
      }
      r := Ok(());
      if backupMoved && backupName.Some? {
        r := RestoreBackup();
      }
    }

    /* ---------- The merge ---------- */

    /** Exactly what a complete merge leaves: the archive, and everything but the sources. */
    ghost predicate MergedNames(after: map<Name, Ino>) {
      && archive in after && after[archive] == archiveIno
      && (forall n | n in after && n != archive :: n in entry.names && after[n] == entry.names[n] && n !in sources)
      && (forall n | n in entry.names && n !in sources :: n in after)
    }

    lemma NamesAfterMerge(prepared: map<Name, Ino>, moved: map<Name, Ino>, activated: map<Name, Ino>, removed: map<Name, Ino>,
                          after: map<Name, Ino>, temp: Name)
      requires temp !in entry.names && temp.Temp? && archive.File? && archive !in sources
      requires forall n | n in entry.names :: n in prepared && prepared[n] == entry.names[n]
      requires forall n | n in prepared :: n in entry.names || n == temp
      requires if HadArchive() then MovedNames(prepared, moved) && backupName.Some? && backupName.value.Backup? else moved == prepared
      requires !HadArchive() ==> archive !in prepared
      requires ActivatedNames(moved, activated, temp) && RemovedNames(activated, removed, |sources|)
      requires after == if HadArchive() then removed - {backupName.value} else removed
      requires forall n | n in entry.names :: n.File?
      ensures MergedNames(after)
    {
      assert sources[..|sources|] == sources;
    }

    /** Everything up to the archive in its place. */
    method Install() returns (r: Result<()>)
      requires Prepared()
      modifies dir, this`archiveStat, this`backupName, this`backupMoved, this`tempName, this`activationStat, this`activationAttempted
      modifies this`inspection
      ensures Consistent() && active && rollbackSafe && activationStat.Some? && Tracked()
      ensures Jammed() && Tidy() ==> r.Err? && Lost()
      ensures r.Ok? ==> InstalledFrom(old(dir.fs.names), old(tempName.value))
      ensures dir.FaultFree() && Tidy() ==> r.Ok? && Clean(dir.fs.names, 0)
    {
      PreparedIsNamed();
      r := BackUpPrepared();
      if r.Ok? {
        r := ActivatePrepared(dir.fs.names, tempName.value, old(dir.fs.names));
      }
    }

    /** Gets the old archive out of the way. */
    method BackUpPrepared() returns (r: Result<()>)
      requires Prepared()
      modifies dir, this`archiveStat, this`backupName, this`backupMoved, this`inspection
      ensures Consistent() && active && rollbackSafe && Tracked() && !activationAttempted
      ensures Jammed() && Tidy() ==> r.Err? && Lost()
      ensures r.Ok? ==> (backupMoved <==> HadArchive()) && TempHolds(dir.fs) && archive !in dir.fs.names
      ensures r.Ok? ==> if HadArchive() then MovedNames(old(dir.fs).names, dir.fs.names) && backupName.value.Backup? else dir.fs == old(dir.fs)
      ensures Tidy() && r.Ok? ==> SourcesStill(dir.fs) && (HadArchive() ==> LinksOfOld(dir.fs) == 1)
      ensures dir.FaultFree() && Tidy() ==> r.Ok?
    {
      PreparedIsTidy();
      r := BackUpArchive();
    }

    /** Activates the archive once the old one is out of the way. */
    method ActivatePrepared(ghost moved: map<Name, Ino>, ghost temp: Name, ghost prepared: map<Name, Ino>) returns (r: Result<()>)
      requires Consistent() && active && rollbackSafe && !activationAttempted && TempHolds(dir.fs) && archive !in dir.fs.names
      requires StatsNoted() && (forall s | s in sources :: s in sourceStats) && activationStat.Some? && (backupMoved <==> HadArchive())
      requires if HadArchive() then MovedNames(prepared, moved) && backupName.Some? && backupName.value.Backup? else moved == prepared
      requires PreparedNames(prepared, temp) && moved == dir.fs.names && tempName == Some(temp)
      modifies dir, this`tempName, this`activationStat, this`activationAttempted
      ensures Consistent() && active && rollbackSafe && activationStat.Some?
      ensures r.Ok? ==> InstalledFrom(prepared, temp)
      ensures r.Ok? && dir.FaultFree() && Tidy() && SourcesStill(old(dir.fs)) && (HadArchive() ==> LinksOfOld(old(dir.fs)) == 1) ==>
                Clean(dir.fs.names, 0)
      ensures dir.FaultFree() ==> r.Ok?
    {
      r := ActivateArchive();
      if r.Ok? {
        InstalledBy(prepared, moved, dir.fs.names, temp);
        InstalledIsFrom(prepared, temp);
      }
    }

    lemma InstalledBy(before: map<Name, Ino>, moved: map<Name, Ino>, after: map<Name, Ino>, temp: Name)
      requires if HadArchive() then MovedNames(before, moved) && backupName.Some? && backupName.value.Backup? else moved == before
      requires ActivatedNames(moved, after, temp)
      ensures InstalledNames(before, after, temp)
    {
    }

    /** The names after the backup and the activation. */
    ghost predicate InstalledNames(before: map<Name, Ino>, after: map<Name, Ino>, temp: Name)
      reads this`backupName
    {
      exists moved ::
        && (if HadArchive() then MovedNames(before, moved) && backupName.Some? && backupName.value.Backup? else moved == before)
        && ActivatedNames(moved, after, temp)
    }

    /** The sources out, then the backup. */
    method Finish() returns (r: Result<()>)
      requires Cleaning() && (forall s | s in sources :: s in sourceStats)
      modifies dir, this`rollbackSafe, this`active
      ensures Consistent()
      ensures r.Ok? ==> !active && ArchiveInPlace(dir.fs) && Gone(dir.fs, |sources|)
      ensures old(Clean(dir.fs.names, 0)) ==>
                && r.Ok?
                && exists removed :: RemovedNames(old(dir.fs).names, removed, |sources|)
                                     && dir.fs.names == if HadArchive() then removed - {backupName.value} else removed
    {
      ghost var names := dir.fs.names;
      ghost var clean := Clean(dir.fs.names, 0);
      var errors, raised := RemoveSources();
      if raised.Some? {
        return Err(raised.value);
      }
      if |errors| > 0 {
        return Err(errors[0]);
      }
      ghost var removed := dir.fs.names;
      assert clean ==> RemovedNames(names, removed, |sources|);
      ghost var before := dir.fs;
      r := DropBackup();
      GoneStays(before, dir.fs);
    }

    lemma GoneStays(fs: FS, gs: FS)
      requires Gone(fs, |sources|) && (forall m | m in gs.names && m.File? :: m in fs.names) && forall s | s in sources :: s.File?
      ensures Gone(gs, |sources|)
    {
      assert forall k | 0 <= k < |sources| :: sources[k] in sources;
    }

    lemma InstalledAndFinished(prepared: map<Name, Ino>, activated: map<Name, Ino>, after: map<Name, Ino>, temp: Name)
      requires temp !in entry.names && temp.Temp? && archive.File? && archive !in sources
      requires forall n | n in entry.names :: n in prepared && prepared[n] == entry.names[n]
      requires forall n | n in prepared :: n in entry.names || n == temp
      requires (!HadArchive() ==> archive !in prepared) && forall n | n in entry.names :: n.File?
      requires InstalledNames(prepared, activated, temp)
      requires (HadArchive() ==> backupName.Some?)
               && exists removed :: RemovedNames(activated, removed, |sources|)
                                    && after == if HadArchive() then removed - {backupName.value} else removed
      ensures MergedNames(after)
    {
      var moved :| (if HadArchive() then MovedNames(prepared, moved) && backupName.Some? && backupName.value.Backup? else moved == prepared)
                   && ActivatedNames(moved, activated, temp);
      var removed :| RemovedNames(activated, removed, |sources|) && after == if HadArchive() then removed - {backupName.value} else removed;
      NamesAfterMerge(prepared, moved, activated, removed, after, temp);
    }

    /** The scratch archive is complete, and nothing else has happened. */
    ghost predicate Prepared()
      reads this, dir`fs, dir`history
    {
      && Opened() && OnlyTempAdded(dir.fs) && archiveStat == None && activationStat.Some? && StatsNoted()
      && tempName.value !in entry.names && (forall s | s in sources :: s in sourceStats) && inspection == None
      && (forall n | n in dir.fs.names :: n in entry.names || n == tempName.value)
    }

    /** The archive is in place, coming from a directory that held nothing new but its temporary name. */
    ghost predicate InstalledFrom(prepared: map<Name, Ino>, temp: Name)
      reads this, dir`fs, dir`history
    {
      && Cleaning() && (forall s | s in sources :: s in sourceStats) && (HadArchive() ==> backupName.Some?)
      && InstalledNames(prepared, dir.fs.names, temp) && PreparedNames(prepared, temp)
    }

    /** The names of the directory as found, and the temporary one. */
    ghost predicate PreparedNames(prepared: map<Name, Ino>, temp: Name) {
      && temp !in entry.names && temp.Temp? && (!HadArchive() ==> archive !in prepared)
      && (forall n | n in entry.names :: n in prepared && prepared[n] == entry.names[n])
      && (forall n | n in prepared :: n in entry.names || n == temp)
    }

    lemma InstalledIsFrom(prepared: map<Name, Ino>, temp: Name)
      requires Consistent() && active && rollbackSafe && activationAttempted && ArchiveInPlace(dir.fs) && StatsNoted()
      requires (HadArchive() ==> BackupHolds(dir.fs) && backupMoved) && forall s | s in sources :: s in sourceStats
      requires InstalledNames(prepared, dir.fs.names, temp) && PreparedNames(prepared, temp)
      ensures InstalledFrom(prepared, temp)
      ensures dir.FaultFree() && Tidy() && SourcesStill(dir.fs) && (HadArchive() ==> LinksOfOld(dir.fs) == 1) ==> Clean(dir.fs.names, 0)
    {
      if SourcesStill(dir.fs) && (HadArchive() ==> LinksOfOld(dir.fs) == 1) {
        InstalledIsClean(prepared, temp);
      }
    }

    lemma PreparedIsNamed()
      requires Prepared()
      ensures PreparedNames(dir.fs.names, tempName.value)
    {
      assert archive in dir.fs.names ==> archive in entry.names;
    }

    lemma PreparedIsTidy()
      requires Prepared()
      ensures OldAt(dir.fs, archive) && (!HadArchive() ==> archive !in dir.fs.names)
      ensures Tidy() ==> CanBackUp(dir.fs) && SourcesStill(dir.fs) && (HadArchive() ==> LinksOfOld(dir.fs) == 1)
    {
      TempAddedIsKept(dir.fs);
      assert archive in dir.fs.names ==> archive in entry.names;
      if Tidy() && HadArchive() {
        assert StatOf(entry, archive).nlink == 1;
      }
    }

    /** Puts the archive in its place and removes what it replaces. */
    method Complete() returns (r: Result<()>)
      requires Prepared()
      modifies dir, this`archiveStat, this`backupName, this`backupMoved, this`tempName, this`activationStat, this`activationAttempted
      modifies this`rollbackSafe, this`active, this`inspection
      ensures Consistent() && (active ==> activationStat.Some?) && (active && rollbackSafe ==> Tracked())
      ensures Jammed() && Tidy() ==> r.Err? && Lost()
      ensures r.Ok? ==> !active && ArchiveInPlace(dir.fs) && Gone(dir.fs, |sources|)
      ensures dir.FaultFree() && Tidy() ==> r.Ok? && MergedNames(dir.fs.names)
    {
      ghost var prepared, temp := dir.fs.names, tempName.value;
      r := Install();
      if r.Err? {
        return;
      }
      r := FinishInstalled(prepared, temp);
    }

    method FinishInstalled(ghost prepared: map<Name, Ino>, ghost temp: Name) returns (r: Result<()>)
      requires InstalledFrom(prepared, temp) && Tracked()
      modifies dir, this`rollbackSafe, this`active
      ensures Consistent() && Tracked()
      ensures r.Ok? ==> !active && ArchiveInPlace(dir.fs) && Gone(dir.fs, |sources|)
      ensures old(Clean(dir.fs.names, 0)) ==> r.Ok? && MergedNames(dir.fs.names)
    {
      ghost var activated := dir.fs.names;
      r := Finish();
      if old(Clean(dir.fs.names, 0)) {
        InstalledAndFinished(prepared, activated, dir.fs.names, temp);
      }
    }

    lemma InstalledIsClean(prepared: map<Name, Ino>, temp: Name)
      requires InstalledNames(prepared, dir.fs.names, temp) && WellFormed(entry) && archive.File? && PreparedNames(prepared, temp)
      requires SourcesStill(dir.fs) && (HadArchive() ==> LinksOfOld(dir.fs) == 1)
      ensures dir.FaultFree() && Tidy() ==> Clean(dir.fs.names, 0)
    {
      var fs := dir.fs;
      var moved :| (if HadArchive() then MovedNames(prepared, moved) && backupName.Some? && backupName.value.Backup? else moved == prepared)
                   && ActivatedNames(moved, fs.names, temp);
      assert sources[..0] == [];
    }

    /** Prepares the archive and opens the transaction. */
    method Open() returns (r: Result<bool>)
      requires Begun() && dir.fs == entry && Fresh()
      modifies dir, this`tempName, this`sourceStats, this`activationStat, this`active
      ensures Consistent() && OnlyTempAdded(dir.fs)
      ensures if r == Ok(true) then Prepared() && Unshared() else !active
      ensures Calm() && Tidy() && Readable(Order()) ==> r == Ok(true)
    {
      r := PrepareArchive();
      if r == Ok(true) {
        active := true;
        TempAddedIsKept(dir.fs);
        assert archive in dir.fs.names ==> archive in entry.names;
      }
    }

    /** The protected part of the merge, without its rollback; false when a source is malformed. */
    method Attempt() returns (r: Result<bool>)
      requires Begun() && dir.fs == entry && Fresh()
      modifies dir, this
      ensures Consistent() && (active ==> activationStat.Some?) && (active && rollbackSafe ==> Tracked())
      ensures r.Ok? && r.value ==> !active && ArchiveInPlace(dir.fs) && Gone(dir.fs, |sources|) && Unshared()
      ensures r.Ok? && !r.value ==> !active && OnlyTempAdded(dir.fs)
      ensures Jammed() && Tidy() && Readable(Order()) ==> r.Err? && Lost()
      ensures dir.FaultFree() && Tidy() && Readable(Order()) ==> r.Ok? && r.value && MergedNames(dir.fs.names)
    {
      r := Open();
      if r.Err? || !r.value {
        return;
      }
      var completed := Complete();
      r := if completed.Ok? then Ok(true) else Err(completed.error);
    }

    /** The temporary archive's own name can go: no protected inode hangs on it. */
    lemma ScratchMoved(fs: FS, gs: FS, n: Name)
      requires WellFormed(entry) && archiveIno !in entry.inodes && archive.File? && forall s | s in sources :: s.File? && s in entry.names
      requires Kept(fs) && n.Temp? && Bound(fs, n, archiveIno) && OnlyAffects(fs, gs, n)
      ensures Kept(gs)
      ensures SourcesHome(fs) ==> SourcesHome(gs)
      ensures ArchiveAsOnEntry(fs) ==> ArchiveAsOnEntry(gs)
    {
      SameDataTrans(entry, fs, gs);
      assert archive in fs.names ==> Bound(gs, archive, fs.names[archive]);
      if !ArchiveInPlace(fs) {
        forall ino | IsProtected(ino) ensures Named(gs, ino) {
          var k :| Bound(fs, k, ino);
          assert Bound(gs, k, ino);
        }
      }
    }

    /** `_unlink_log_temp`. */
    method UnlinkLogTemp() returns (r: Result<()>)
      requires Begun() && TempIsScratch()
      modifies dir
      ensures Begun()
      ensures SourcesHome(old(dir.fs)) ==> SourcesHome(dir.fs)
      ensures ArchiveAsOnEntry(old(dir.fs)) ==> ArchiveAsOnEntry(dir.fs)
      ensures archive !in old(dir.fs).names ==> archive !in dir.fs.names
      ensures BackupHolds(old(dir.fs)) ==> BackupHolds(dir.fs)
    {
      if tempName.None? {
        return Ok(());
      }
      var stat := dir.Lstat(tempName.value);
      if stat.Err? {
        return Err(stat.error);
      }
      if stat.value.ino != archiveIno {
        return Err(CheckFailed);
      }
      ghost var before, history := dir.fs, dir.history;
      r := dir.ClaimAndUnlink(tempName.value, stat.value, false);
      forall k | start <= k < |dir.history| ensures Kept(dir.history[k]) {
        if k < |history| {
          assert dir.history[k] == history[k];
        } else {
          ScratchMoved(before, dir.history[k], tempName.value);
        }
      }
      ScratchMoved(before, dir.fs, tempName.value);
    }

    /** One month of `_merge_old_months`.  At every instant, under every schedule of failing
        calls, the old archive and every source are under some name, or the archive in place
        holds the text of all of them (`Begun` holds of the whole history).  A rollback is only
        entered while every source is home.  `undone` tells that it returned normally. */
    method MergeMonth() returns (r: Result<bool>, undone: bool)
      requires Begun() && dir.fs == entry && Fresh()
      modifies dir, this
      ensures Begun()
      ensures r.Ok? && r.value ==> ArchiveInPlace(dir.fs) && Gone(dir.fs, |sources|) && Unshared()
      ensures r.Ok? && !r.value ==> SourcesHome(dir.fs) && ArchiveAsOnEntry(dir.fs)
      ensures undone ==> r.Err? && SourcesHome(dir.fs)
      ensures undone ==> (ArchiveAsOnEntry(dir.fs) <==> !Overlooked())
      ensures undone && Overlooked() ==> HadArchive() && archive !in dir.fs.names && BackupHolds(dir.fs)
      ensures Jammed() && Tidy() && Readable(Order()) ==> undone && Overlooked()
      ensures dir.FaultFree() && Tidy() && Readable(Order()) ==> r.Ok? && r.value && MergedNames(dir.fs.names)
    {
      undone := false;
      r := Attempt();
      if r.Ok? && r.value {
        return;
      }
      if r.Ok? {
        TempAddedIsKept(dir.fs);
        assert archive in dir.fs.names ==> archive in entry.names;
        var cleaned := UnlinkLogTemp();
        r := if cleaned.Ok? then r else Err(cleaned.error);
        return;
      }
      if active && rollbackSafe {
        var rolledBack := Rollback();
        undone := rolledBack.Ok?;
      }
      var _ := UnlinkLogTemp();
    }
  }

  /* ---------- A rollback that loses the archive's name ---------- */

  const EXAMPLE_ARCHIVE := File("log.gz")
  const EXAMPLE_SOURCE := File("day.log")

  function ExampleDirectory(): FS {
    FS(map[EXAMPLE_ARCHIVE := 0, EXAMPLE_SOURCE := 1], map[0 := Inode(Gzip("old"), 1, 0), 1 := Inode(Plain("new"), 1, 0)], 0)
  }

  lemma ExampleIsTidy(merge: Merge)
    requires merge.entry == ExampleDirectory() && merge.archive == EXAMPLE_ARCHIVE && merge.sources == [EXAMPLE_SOURCE]
    ensures WellFormed(merge.entry) && merge.Tidy() && merge.Readable(merge.Order())
  {
    assert EXAMPLE_ARCHIVE.path[0] == 'l' && EXAMPLE_SOURCE.path[0] == 'd';
    var source := NameText(EXAMPLE_SOURCE);
    assert source[|source| - 1] == 'g';
    forall n | n in merge.entry.names ensures merge.ReadableName(n) && StatOf(merge.entry, n).nlink == 1 {
      assert n == EXAMPLE_ARCHIVE || n == EXAMPLE_SOURCE;
    }
  }

  const JAMMING: (nat, FS) -> Fault := (k: nat, fs: FS) => if EXAMPLE_ARCHIVE in fs.names then NoFault else Fails(false, false)

  /** An archive and one source, and a disk that stops working while the archive has no name: the
      merge fails, its rollback returns normally, and the archive's name is gone. */
  method JammedMergeExample() returns (merge: Merge, undone: bool)
    ensures merge.entry == ExampleDirectory() && merge.archive == EXAMPLE_ARCHIVE && merge.sources == [EXAMPLE_SOURCE]
    ensures undone && EXAMPLE_ARCHIVE in merge.entry.names && EXAMPLE_ARCHIVE !in merge.dir.fs.names
  {
    var dir := new Directory(ExampleDirectory(), JAMMING, k => k);
    merge := new Merge(dir, EXAMPLE_ARCHIVE, [EXAMPLE_SOURCE], 2, k => k);
    ExampleIsTidy(merge);
    var r;
    r, undone := merge.MergeMonth();
  }
}
