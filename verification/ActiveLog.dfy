/** One day of the active log: lines are appended, a full file is rotated into a numbered slot,
    and maintenance removes the oldest files. */
module ActiveLog {
  import opened LogRetention
  import opened Numerals
  import opened Wrappers

  const MAX_DAILY_LOG_BYTES := 1_000_000
  const MAX_LOG_ROTATION_CANDIDATES := 100

  /** A formatted record with its line end, one character for each encoded byte. */
  type Line = string

  datatype Journal = Journal(lines: seq<Line>, mtime: int)

  datatype Rotated = Rotated(slot: nat, journal: Journal)

  /** The files of one day; the rotated ones in the order of their rotation. */
  datatype Day = Day(active: Option<Journal>, rotated: seq<Rotated>)

  function Size(lines: seq<Line>): nat {
    if lines == [] then 0 else Size(lines[..|lines| - 1]) + |lines[|lines| - 1]|
  }

  function ActiveName(stem: string): string {
    stem + ".log"
  }

  function SlotName(stem: string, slot: nat): string {
    stem + "." + Decimal(slot) + ".log"
  }

  lemma SlotNamesDiffer(stem: string, j: nat, k: nat)
    ensures j != k ==> SlotName(stem, j) != SlotName(stem, k)
    ensures SlotName(stem, j) != ActiveName(stem)
  {
    assert |SlotName(stem, j)| > |ActiveName(stem)|;
    if j != k {
      DecimalsDiffer(j, k);
      var a, b := SlotName(stem, j), SlotName(stem, k);
      assert a[|stem| + 1..|a| - 4] == Decimal(j) && b[|stem| + 1..|b| - 4] == Decimal(k);
    }
  }

  /* ---------- What appending a line means ---------- */

  predicate Taken(rotated: seq<Rotated>, slot: nat) {
    exists k :: 0 <= k < |rotated| && rotated[k].slot == slot
  }

  /** The first free slot from `from` on, or one past the last. */
  function FreeSlot(rotated: seq<Rotated>, from: nat): nat
    requires from <= MAX_LOG_ROTATION_CANDIDATES + 1
    decreases MAX_LOG_ROTATION_CANDIDATES + 1 - from
  {
    if from > MAX_LOG_ROTATION_CANDIDATES || !Taken(rotated, from) then from else FreeSlot(rotated, from + 1)
  }

  predicate HasSlot(day: Day) {
    FreeSlot(day.rotated, 1) <= MAX_LOG_ROTATION_CANDIDATES
  }

  /** The line does not fit behind what the active file holds. */
  predicate Overflows(day: Day, line: Line) {
    day.active.Some? && Size(day.active.value.lines) + |line| > MAX_DAILY_LOG_BYTES
  }

  function RotatedDay(day: Day): Day
    requires day.active.Some?
  {
    Day(None, day.rotated + [Rotated(FreeSlot(day.rotated, 1), day.active.value)])
  }

  function Written(day: Day, line: Line, now: int): Day {
    day.(active := Some(Journal((if day.active.Some? then day.active.value.lines else []) + [line], now)))
  }

  /** The day after one more line. */
  function Appended(day: Day, line: Line, now: int): Day {
    Written(if Overflows(day, line) then RotatedDay(day) else day, line, now)
  }

  /* ---------- The handler ---------- */

  function ActiveFile(stem: string, active: Option<Journal>): seq<LogFile> {
    if active.Some? then [LogFile(ActiveName(stem), active.value.mtime, Size(active.value.lines))] else []
  }

  function RotatedFile(stem: string, r: Rotated): LogFile {
    LogFile(SlotName(stem, r.slot), r.journal.mtime, Size(r.journal.lines))
  }

  function RotatedFiles(stem: string, rotated: seq<Rotated>): seq<LogFile> {
    seq(|rotated|, k requires 0 <= k < |rotated| => RotatedFile(stem, rotated[k]))
  }

  /** The log files of the directory. */
  function Listing(stem: string, day: Day, others: seq<LogFile>): seq<LogFile> {
    ActiveFile(stem, day.active) + RotatedFiles(stem, day.rotated) + others
  }

  ghost predicate NotToday(stem: string, files: seq<LogFile>) {
    && DistinctNames(files)
    && (forall f | f in files :: f.name != ActiveName(stem))
    && (forall f, slot: nat | f in files :: f.name != SlotName(stem, slot))
  }

  ghost predicate DistinctSlots(rotated: seq<Rotated>) {
    forall i, j | 0 <= i < j < |rotated| :: rotated[i].slot != rotated[j].slot
  }

  /** The rotated files that are not removed. */
  function Remaining(stem: string, rotated: seq<Rotated>, doomed: seq<LogFile>): seq<Rotated> {
    if rotated == [] then []
    else Remaining(stem, rotated[..|rotated| - 1], doomed)
         + if RotatedFile(stem, rotated[|rotated| - 1]) in doomed then [] else [rotated[|rotated| - 1]]
  }

  /** The rotated files that are removed. */
  function Removed(stem: string, rotated: seq<Rotated>, doomed: seq<LogFile>): seq<Rotated> {
    if rotated == [] then []
    else Removed(stem, rotated[..|rotated| - 1], doomed)
         + if RotatedFile(stem, rotated[|rotated| - 1]) in doomed then [rotated[|rotated| - 1]] else []
  }

  /** What the size limit leaves of a day, and what it removes. */
  ghost predicate Pruned(stem: string, day: Day, others: seq<LogFile>, after: Day, gone: seq<Rotated>) {
    exists doomed ::
      && Prunes(Listing(stem, day, others), ActiveName(stem), doomed)
      && after == Day(day.active, Remaining(stem, day.rotated, doomed)) && gone == Removed(stem, day.rotated, doomed)
  }

  lemma BothDistinct(a: seq<LogFile>, b: seq<LogFile>)
    requires DistinctNames(a) && DistinctNames(b) && forall f, g | f in a && g in b :: f.name != g.name
    ensures DistinctNames(a + b)
  {
    forall i, j | 0 <= i < j < |a + b| ensures (a + b)[i].name != (a + b)[j].name {
      if i < |a| <= j {
        assert a[i] in a && b[j - |a|] in b;
      }
    }
  }

  lemma TodaysNames(stem: string, day: Day)
    ensures forall f | f in RotatedFiles(stem, day.rotated) ::
              f.name != ActiveName(stem) && exists k :: 0 <= k < |day.rotated| && f == RotatedFile(stem, day.rotated[k])
    ensures DistinctSlots(day.rotated) ==> DistinctNames(ActiveFile(stem, day.active) + RotatedFiles(stem, day.rotated))
  {
    var files := RotatedFiles(stem, day.rotated);
    forall f | f in files
      ensures f.name != ActiveName(stem) && exists k :: 0 <= k < |day.rotated| && f == RotatedFile(stem, day.rotated[k])
    {
      var k :| 0 <= k < |files| && files[k] == f;
      SlotNamesDiffer(stem, day.rotated[k].slot, 0);
    }
    if DistinctSlots(day.rotated) {
      forall i, j | 0 <= i < j < |files| ensures files[i].name != files[j].name {
        SlotNamesDiffer(stem, day.rotated[i].slot, day.rotated[j].slot);
      }
      BothDistinct(ActiveFile(stem, day.active), files);
    }
  }

  lemma ListingIsDistinct(stem: string, day: Day, others: seq<LogFile>)
    requires NotToday(stem, others) && DistinctSlots(day.rotated)
    ensures DistinctNames(Listing(stem, day, others))
  {
    TodaysNames(stem, day);
    BothDistinct(ActiveFile(stem, day.active) + RotatedFiles(stem, day.rotated), others);
  }

  class LogHandler {
    const stem: string
    var day: Day
    var others: seq<LogFile>

    constructor (stem: string, day: Day, others: seq<LogFile>)
      ensures this.stem == stem && this.day == day && this.others == others
    {
      this.stem, this.day, this.others := stem, day, others;
    }

    /** `_rotate_active_if_needed` with force, when no call fails; false when no slot is free. */
    method Rotate() returns (done: bool)
      modifies this`day
      ensures done <==> old(day).active.None? || HasSlot(old(day))
      ensures day == if old(day).active.Some? && done then RotatedDay(old(day)) else old(day)
    {
      if day.active.None? {
        return true;
      }
      var suffix := 1;
      while suffix <= MAX_LOG_ROTATION_CANDIDATES
        invariant suffix <= MAX_LOG_ROTATION_CANDIDATES + 1
        invariant FreeSlot(day.rotated, 1) == FreeSlot(day.rotated, suffix)
        invariant day == old(day)
      {
        if !Taken(day.rotated, suffix) {
          day := Day(None, day.rotated + [Rotated(suffix, day.active.value)]);
          return true;
        }
        suffix := suffix + 1;
      }
      done := false;
    }

    /** `_emit_locked` up to the write; `statFails` says that the size could not be read by name. */
    method Append(line: Line, statFails: bool, now: int) returns (done: bool, rotated: bool)
      requires |line| <= MAX_DAILY_LOG_BYTES
      modifies this`day
      ensures done <==> !Overflows(old(day), line) || HasSlot(old(day))
      ensures day == if done then Appended(old(day), line, now) else old(day)
      ensures rotated == Overflows(old(day), line)
    {
      rotated := false;
      if day.active.Some? && !statFails && Size(day.active.value.lines) + |line| > MAX_DAILY_LOG_BYTES {
        rotated := true;
        done := Rotate();
        if !done {
          return;
        }
      }
      var openedSize := if day.active.Some? then Size(day.active.value.lines) else 0;
      if openedSize > 0 && openedSize + |line| > MAX_DAILY_LOG_BYTES {
        rotated := true;
        done := Rotate();
        if !done {
          return;
        }
      }
      day := Written(day, line, now);
      done := true;
    }

    /** `_emit_locked`: the record, or its short stand-in when it is too long, and maintenance
        after a rotation or when it is due; `refreshed` are the other files it then finds. */
    method Emit(line: Line, short: Line, statFails: bool, now: int, due: bool, refreshed: seq<LogFile>)
      returns (done: bool, ghost gone: seq<Rotated>)
      requires |short| <= MAX_DAILY_LOG_BYTES && DistinctSlots(day.rotated) && NotToday(stem, refreshed)
      modifies this
      ensures done <==> !Overflows(old(day), Fitted(line, short)) || HasSlot(old(day))
      ensures !done ==> day == old(day)
      ensures done ==> Emitted(stem, old(day), Fitted(line, short), now, day, gone)
    {
      gone := [];
      var rotated;
      done, rotated := Append(Fitted(line, short), statFails, now);
      if done && (rotated || due) {
        AppendingKeepsSlots(old(day), Fitted(line, short), now);
        gone := Maintain(refreshed);
      }
    }

    /** The size limit; `refreshed` are the other files that maintenance finds. */
    method Maintain(refreshed: seq<LogFile>) returns (ghost gone: seq<Rotated>)
      requires DistinctSlots(day.rotated) && NotToday(stem, refreshed)
      modifies this
      ensures Pruned(stem, old(day), refreshed, day, gone)
    {
      others := refreshed;
      ListingIsDistinct(stem, day, others);
      var doomed := EnforceTotalSizeLimit(Listing(stem, day, others), ActiveName(stem));
      gone := Removed(stem, day.rotated, doomed);
      day := Day(day.active, Remaining(stem, day.rotated, doomed));
      others := Left(others, doomed);
    }

    /** `configure_logging`: maintenance, and a rotation if the active file is full; false when no
        slot is free for it. */
    method Start(refreshed: seq<LogFile>) returns (done: bool, ghost gone: seq<Rotated>)
      requires DistinctSlots(day.rotated) && NotToday(stem, refreshed)
      modifies this
      ensures Started(stem, old(day), day, gone) && (done <==> !Full(day))
    {
      gone := Maintain(refreshed);
      done := true;
      if Full(day) {
        done := Rotate();
      }
    }
  }

  /** Too long a record is replaced. */
  function Fitted(line: Line, short: Line): Line {
    if |line| > MAX_DAILY_LOG_BYTES then short else line
  }

  function Left(files: seq<LogFile>, doomed: seq<LogFile>): seq<LogFile> {
    if files == [] then []
    else Left(files[..|files| - 1], doomed) + if files[|files| - 1] in doomed then [] else [files[|files| - 1]]
  }

  /** One emit: the line is appended, and after a rotation at least the size limit is enforced. */
  ghost predicate Emitted(stem: string, day: Day, line: Line, now: int, after: Day, gone: seq<Rotated>) {
    var appended := Appended(day, line, now);
    || (after == appended && gone == [] && !Overflows(day, line))
    || (exists others :: NotToday(stem, others) && Pruned(stem, appended, others, after, gone))
  }

  /** The active file has reached its limit. */
  predicate Full(day: Day) {
    day.active.Some? && Size(day.active.value.lines) >= MAX_DAILY_LOG_BYTES
  }

  function Restarted(day: Day): Day {
    if Full(day) && HasSlot(day) then RotatedDay(day) else day
  }

  /** One start: the size limit is enforced, and then a full file is rotated. */
  ghost predicate Started(stem: string, day: Day, after: Day, gone: seq<Rotated>) {
    exists others, kept :: NotToday(stem, others) && Pruned(stem, day, others, kept, gone) && after == Restarted(kept)
  }

  lemma {:induction false} FreeSlotIsFirst(rotated: seq<Rotated>, from: nat)
    requires from <= MAX_LOG_ROTATION_CANDIDATES + 1
    ensures from <= FreeSlot(rotated, from) <= MAX_LOG_ROTATION_CANDIDATES + 1
    ensures forall k | from <= k < FreeSlot(rotated, from) :: Taken(rotated, k)
    ensures FreeSlot(rotated, from) <= MAX_LOG_ROTATION_CANDIDATES ==> !Taken(rotated, FreeSlot(rotated, from))
    decreases MAX_LOG_ROTATION_CANDIDATES + 1 - from
  {
    if from <= MAX_LOG_ROTATION_CANDIDATES && Taken(rotated, from) {
      FreeSlotIsFirst(rotated, from + 1);
    }
  }

  /** A rotation never takes an occupied slot. */
  lemma AppendingKeepsSlots(day: Day, line: Line, now: int)
    requires DistinctSlots(day.rotated) && (!Overflows(day, line) || HasSlot(day))
    ensures DistinctSlots(Appended(day, line, now).rotated)
  {
    FreeSlotIsFirst(day.rotated, 1);
    assert forall k | 0 <= k < |day.rotated| :: Taken(day.rotated, day.rotated[k].slot);
  }

  /* ---------- No line is lost ---------- */

  function Lines(rotated: seq<Rotated>): seq<Line> {
    if rotated == [] then [] else Lines(rotated[..|rotated| - 1]) + rotated[|rotated| - 1].journal.lines
  }

  /** Everything the day's files hold, in the order it was written. */
  function Recorded(day: Day): seq<Line> {
    Lines(day.rotated) + if day.active.Some? then day.active.value.lines else []
  }

  /** Appending adds exactly the line, behind everything there was. */
  lemma AppendingRecords(day: Day, line: Line, now: int)
    ensures Recorded(Appended(day, line, now)) == Recorded(day) + [line]
  {
    if Overflows(day, line) {
      var r := RotatedDay(day).rotated;
      assert r[..|r| - 1] == day.rotated;
    }
  }

  /* ---------- Ages and sizes along a day ---------- */

  function Journals(day: Day): seq<Journal> {
    seq(|day.rotated|, k requires 0 <= k < |day.rotated| => day.rotated[k].journal)
    + if day.active.Some? then [day.active.value] else []
  }

  /** The rotated files age in the order of their rotation. */
  ghost predicate InOrder(rotated: seq<Rotated>) {
    forall i, j | 0 <= i < j < |rotated| :: rotated[i].journal.mtime < rotated[j].journal.mtime
  }

  /** No two neighbours would fit in one file, and no file is too long. */
  ghost predicate Tight(journals: seq<Journal>) {
    && (forall i | 0 <= i < |journals| - 1 :: Size(journals[i].lines) + FirstLength(journals[i + 1]) > MAX_DAILY_LOG_BYTES)
    && (forall i | 0 <= i < |journals| :: Size(journals[i].lines) <= MAX_DAILY_LOG_BYTES)
  }

  function FirstLength(journal: Journal): nat {
    if journal.lines == [] then 0 else |journal.lines[0]|
  }

  lemma SizeOfLine(line: Line)
    ensures Size([line]) == |line|
  {
    assert [line][..0] == [];
  }

  lemma {:induction false} FirstIsWithin(journal: Journal)
    ensures FirstLength(journal) <= Size(journal.lines)
    decreases |journal.lines|
  {
    var lines := journal.lines;
    if |lines| > 1 {
      FirstIsWithin(journal.(lines := lines[..|lines| - 1]));
    }
  }

  /** Without an active file the last rotated one has reached its limit. */
  ghost predicate LastIsFull(day: Day) {
    day.active.None? && day.rotated != [] ==> Size(day.rotated[|day.rotated| - 1].journal.lines) >= MAX_DAILY_LOG_BYTES
  }

  lemma AppendingKeepsTight(day: Day, line: Line, now: int)
    requires Tight(Journals(day)) && 0 < |line| <= MAX_DAILY_LOG_BYTES && LastIsFull(day)
    ensures Tight(Journals(Appended(day, line, now)))
  {
    var was := Journals(day);
    JournalsAppended(day, line, now);
    SizeOfLine(line);
    if Overflows(day, line) || (day.active.None? && was != []) {
      LongerIsTight(was, Journal([line], now));
    } else if day.active.Some? {
      var lines := day.active.value.lines + [line];
      assert lines[..|lines| - 1] == day.active.value.lines;
      HeavierIsTight(was, Journal(lines, now));
    }
  }

  lemma JournalsAppended(day: Day, line: Line, now: int)
    ensures var was := Journals(day);
            Journals(Appended(day, line, now))
            == if Overflows(day, line) || day.active.None? then was + [Journal([line], now)]
               else was[..|was| - 1] + [Journal(day.active.value.lines + [line], now)]
  {
    var was, appended := Journals(day), Appended(day, line, now);
    assert [] + [line] == [line];
    if Overflows(day, line) {
      assert Journals(RotatedDay(day)) == was;
      assert Journals(appended) == was + [Journal([line], now)];
    } else if day.active.None? {
      assert Journals(appended) == was + [Journal([line], now)];
    } else {
      assert Journals(appended) == was[..|was| - 1] + [Journal(day.active.value.lines + [line], now)];
    }
  }

  lemma LongerIsTight(was: seq<Journal>, next: Journal)
    requires Tight(was) && was != []
    requires Size(was[|was| - 1].lines) + FirstLength(next) > MAX_DAILY_LOG_BYTES && Size(next.lines) <= MAX_DAILY_LOG_BYTES
    ensures Tight(was + [next])
  {
    var now := was + [next];
    forall i | 0 <= i < |now| - 1 ensures Size(now[i].lines) + FirstLength(now[i + 1]) > MAX_DAILY_LOG_BYTES {
      assert i < |was| - 1 ==> now[i + 1] == was[i + 1];
    }
  }

  lemma HeavierIsTight(was: seq<Journal>, next: Journal)
    requires Tight(was) && was != []
    requires was[|was| - 1].lines <= next.lines && Size(next.lines) <= MAX_DAILY_LOG_BYTES
    ensures Tight(was[..|was| - 1] + [next])
  {
    var now := was[..|was| - 1] + [next];
    forall i | 0 <= i < |now| - 1 ensures Size(now[i].lines) + FirstLength(now[i + 1]) > MAX_DAILY_LOG_BYTES {
      assert Size(was[i].lines) + FirstLength(was[i + 1]) > MAX_DAILY_LOG_BYTES;
    }
  }

  function TotalBytes(journals: seq<Journal>): nat {
    if journals == [] then 0 else TotalBytes(journals[..|journals| - 1]) + Size(journals[|journals| - 1].lines)
  }

  /** Two neighbours always exceed one file's limit. */
  lemma {:induction false} NeighboursAreLarge(journals: seq<Journal>)
    requires Tight(journals)
    ensures TotalBytes(journals) >= |journals| / 2 * (MAX_DAILY_LOG_BYTES + 1)
  {
    var n := |journals|;
    if n >= 2 {
      var rest := journals[..n - 2];
      assert journals[..n - 1][..n - 2] == rest;
      NeighboursAreLarge(rest);
      assert Size(journals[n - 2].lines) + FirstLength(journals[n - 2 + 1]) > MAX_DAILY_LOG_BYTES;
      FirstIsWithin(journals[n - 1]);
      assert n / 2 == (n - 2) / 2 + 1;
    }
  }

  /* ---------- What the size limit does to a day ---------- */

  lemma {:induction false} RemainingSuffix(stem: string, rotated: seq<Rotated>, doomed: seq<LogFile>, n: nat)
    requires n <= |rotated|
    requires forall k | 0 <= k < |rotated| :: RotatedFile(stem, rotated[k]) in doomed <==> k < n
    ensures Remaining(stem, rotated, doomed) == rotated[n..]
  {
    if rotated != [] {
      var front := rotated[..|rotated| - 1];
      if n == |rotated| {
        RemainingSuffix(stem, front, doomed, n - 1);
      } else {
        RemainingSuffix(stem, front, doomed, n);
        assert rotated[n..] == front[n..] + [rotated[|rotated| - 1]];
      }
    }
  }

  /** Whatever the clock does, a rotated file goes as a whole or stays as it is. */
  lemma {:induction false} RemainingMembers(stem: string, rotated: seq<Rotated>, doomed: seq<LogFile>)
    ensures forall r :: r in Remaining(stem, rotated, doomed) <==> r in rotated && RotatedFile(stem, r) !in doomed
  {
    if rotated != [] {
      RemainingMembers(stem, rotated[..|rotated| - 1], doomed);
      assert rotated == rotated[..|rotated| - 1] + [rotated[|rotated| - 1]];
    }
  }

  /** How many rotated files go, when the older ones always go first. */
  lemma {:induction false} DoomedFront(stem: string, rotated: seq<Rotated>, doomed: seq<LogFile>) returns (n: nat)
    requires forall j, k | 0 <= j < k < |rotated| && RotatedFile(stem, rotated[k]) in doomed :: RotatedFile(stem, rotated[j]) in doomed
    ensures n <= |rotated| && forall k | 0 <= k < |rotated| :: RotatedFile(stem, rotated[k]) in doomed <==> k < n
  {
    if rotated == [] || RotatedFile(stem, rotated[|rotated| - 1]) in doomed {
      n := |rotated|;
    } else {
      n := DoomedFront(stem, rotated[..|rotated| - 1], doomed);
    }
  }

  lemma OlderGoFirst(stem: string, day: Day, others: seq<LogFile>, doomed: seq<LogFile>)
    requires InOrder(day.rotated) && Prunes(Listing(stem, day, others), ActiveName(stem), doomed)
    ensures forall j, k | 0 <= j < k < |day.rotated| && RotatedFile(stem, day.rotated[k]) in doomed :: RotatedFile(stem, day.rotated[j]) in doomed
  {
    forall j, k | 0 <= j < k < |day.rotated| && RotatedFile(stem, day.rotated[k]) in doomed
      ensures RotatedFile(stem, day.rotated[j]) in doomed
    {
      IsListed(stem, day, others, j);
      assert NotYounger(RotatedFile(stem, day.rotated[j]), RotatedFile(stem, day.rotated[k]));
    }
  }

  lemma IsListed(stem: string, day: Day, others: seq<LogFile>, k: nat)
    requires k < |day.rotated|
    ensures RotatedFile(stem, day.rotated[k]) in Listing(stem, day, others)
    ensures RotatedFile(stem, day.rotated[k]) in RotatedFiles(stem, day.rotated)
    ensures RotatedFile(stem, day.rotated[k]).name != ActiveName(stem)
  {
    var files := RotatedFiles(stem, day.rotated);
    assert files[k] == RotatedFile(stem, day.rotated[k]);
    assert files[k] in files;
    TodaysNames(stem, day);
  }

  lemma {:induction false} TotalOfBoth(a: seq<LogFile>, b: seq<LogFile>)
    ensures TotalSize(a + b) == TotalSize(a) + TotalSize(b)
  {
    if b == [] {
      assert a + b == a;
    } else {
      TotalOfBoth(a, b[..|b| - 1]);
      assert (a + b)[..|a + b| - 1] == a + b[..|b| - 1];
    }
  }

  lemma {:induction false} TotalOfRotated(stem: string, rotated: seq<Rotated>)
    ensures TotalSize(RotatedFiles(stem, rotated)) == TotalBytes(Journals(Day(None, rotated)))
  {
    if rotated != [] {
      var front := rotated[..|rotated| - 1];
      TotalOfRotated(stem, front);
      assert RotatedFiles(stem, rotated)[..|rotated| - 1] == RotatedFiles(stem, front);
      assert Journals(Day(None, rotated))[..|rotated| - 1] == Journals(Day(None, front));
    }
  }

  lemma TotalOfDay(stem: string, day: Day)
    ensures TotalSize(ActiveFile(stem, day.active) + RotatedFiles(stem, day.rotated)) == TotalBytes(Journals(day))
  {
    TotalOfBoth(ActiveFile(stem, day.active), RotatedFiles(stem, day.rotated));
    TotalOfRotated(stem, day.rotated);
    if day.active.Some? {
      assert ActiveFile(stem, day.active)[..0] == [];
      assert Journals(day)[..|Journals(day)| - 1] == Journals(Day(None, day.rotated));
    }
  }

  /** What is not removed fits beside what is. */
  lemma KeptAndDoomed(stem: string, day: Day, others: seq<LogFile>, doomed: seq<LogFile>, n: nat)
    requires NotToday(stem, others) && DistinctSlots(day.rotated) && n <= |day.rotated|
    requires Prunes(Listing(stem, day, others), ActiveName(stem), doomed)
    requires forall k | n <= k < |day.rotated| :: RotatedFile(stem, day.rotated[k]) !in doomed
    ensures TotalBytes(Journals(Day(day.active, day.rotated[n..]))) + TotalSize(doomed) <= TotalSize(Listing(stem, day, others))
  {
    var files := Listing(stem, day, others);
    var rest := Day(day.active, day.rotated[n..]);
    var kept := ActiveFile(stem, day.active) + RotatedFiles(stem, rest.rotated);
    TotalOfDay(stem, rest);
    TotalOfBoth(kept, doomed);
    TodaysNames(stem, rest);
    ListingIsDistinct(stem, day, others);
    KeptIsListed(stem, day, others, doomed, n);
    forall f, g | f in kept && g in doomed ensures f.name != g.name {
      if f.name == g.name {
        SameNameSameFile(files, f, g);
      }
    }
    BothDistinct(kept, doomed);
    SubsetIsSmaller(kept + doomed, files);
  }

  lemma KeptIsListed(stem: string, day: Day, others: seq<LogFile>, doomed: seq<LogFile>, n: nat)
    requires n <= |day.rotated| && Prunes(Listing(stem, day, others), ActiveName(stem), doomed)
    requires forall k | n <= k < |day.rotated| :: RotatedFile(stem, day.rotated[k]) !in doomed
    ensures forall f | f in ActiveFile(stem, day.active) + RotatedFiles(stem, day.rotated[n..]) ::
              f in Listing(stem, day, others) && f !in doomed
  {
    var rest := Day(day.active, day.rotated[n..]);
    var active := ActiveFile(stem, day.active);
    forall f | f in active + RotatedFiles(stem, rest.rotated) ensures f in Listing(stem, day, others) && f !in doomed {
      if f in active {
        assert f.name == ActiveName(stem);
      } else {
        TodaysNames(stem, rest);
        var k :| 0 <= k < |rest.rotated| && f == RotatedFile(stem, rest.rotated[k]);
        IsListed(stem, day, others, n + k);
      }
    }
  }

  lemma SameNameSameFile(files: seq<LogFile>, f: LogFile, g: LogFile)
    requires DistinctNames(files) && f in files && g in files && f.name == g.name
    ensures f == g
  {
  }

  /** When rotated files age in order, the limit removes the oldest of the day, until the rest of
      the day is within the limit or only the active file is left. */
  lemma PruningDropsOldest(stem: string, day: Day, others: seq<LogFile>, after: Day, gone: seq<Rotated>) returns (n: nat)
    requires NotToday(stem, others) && DistinctSlots(day.rotated) && InOrder(day.rotated)
    requires Pruned(stem, day, others, after, gone)
    ensures n <= |day.rotated| && after == Day(day.active, day.rotated[n..])
    ensures after.rotated == [] || TotalBytes(Journals(after)) <= MAX_TOTAL_LOG_BYTES
  {
    var files := Listing(stem, day, others);
    var doomed :| Prunes(files, ActiveName(stem), doomed) && after == Day(day.active, Remaining(stem, day.rotated, doomed));
    OlderGoFirst(stem, day, others, doomed);
    n := DoomedFront(stem, day.rotated, doomed);
    RemainingSuffix(stem, day.rotated, doomed, n);
    KeptAndDoomed(stem, day, others, doomed, n);
    if n < |day.rotated| {
      IsListed(stem, day, others, n);
    }
  }
}
