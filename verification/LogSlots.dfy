/** A run that uses up the slots of a day, under a clock that goes back and forth.

    Short and long lines alternate, and each of them rotates the file before it.  The files of long
    lines are the older ones by their times, so the size limit removes them, and the files of short
    lines pile up. */
module LogSlots {
  import opened ActiveLog
  import opened LogDays
  import opened LogRetention
  import opened Sorting
  import opened Wrappers

  const LATE := 1_000
  const SHORT := 1

  predicate IsShort(r: Rotated) {
    r.journal.mtime == LATE && Size(r.journal.lines) == SHORT
  }

  predicate IsLong(r: Rotated, before: int) {
    r.journal.mtime < before <= LATE && Size(r.journal.lines) == MAX_DAILY_LOG_BYTES
  }

  /** The files of long lines. */
  function Longs(rotated: seq<Rotated>): nat {
    if rotated == [] then 0
    else Longs(rotated[..|rotated| - 1]) + if rotated[|rotated| - 1].journal.mtime == LATE then 0 else 1
  }

  /** Short files, all of one late time, and long ones, which age in order before it. */
  ghost predicate Mixed(rotated: seq<Rotated>, before: int) {
    && (forall k | 0 <= k < |rotated| :: IsShort(rotated[k]) || IsLong(rotated[k], before))
    && (forall i, j | 0 <= i < j < |rotated| && rotated[i].journal.mtime < LATE && rotated[j].journal.mtime < LATE ::
          rotated[i].journal.mtime < rotated[j].journal.mtime)
  }

  lemma {:induction false} MixedTotal(rotated: seq<Rotated>, before: int)
    requires Mixed(rotated, before)
    ensures Longs(rotated) <= |rotated|
    ensures TotalBytes(Journals(Day(None, rotated))) == (|rotated| - Longs(rotated)) * SHORT + Longs(rotated) * MAX_DAILY_LOG_BYTES
  {
    if rotated != [] {
      var front, last := rotated[..|rotated| - 1], rotated[|rotated| - 1];
      MixedTotal(front, before);
      var js := Journals(Day(None, rotated));
      assert js[..|js| - 1] == Journals(Day(None, front)) && js[|js| - 1] == last.journal;
      assert IsShort(last) || IsLong(last, before);
    }
  }

  lemma MixedDay(day: Day, before: int)
    requires Mixed(day.rotated, before) && day.active.Some?
    ensures Longs(day.rotated) <= |day.rotated|
    ensures TotalBytes(Journals(day))
         == |day.rotated| - Longs(day.rotated) + Longs(day.rotated) * MAX_DAILY_LOG_BYTES + Size(day.active.value.lines)
  {
    MixedTotal(day.rotated, before);
    var js := Journals(day);
    assert js[..|js| - 1] == Journals(Day(None, day.rotated));
  }

  lemma OneMore(rotated: seq<Rotated>, next: Rotated, before: int, until: int)
    requires Mixed(rotated, before) && before <= until <= LATE
    requires IsShort(next) || (IsLong(next, until) && next.journal.mtime >= before)
    ensures Mixed(rotated + [next], until) && Longs(rotated + [next]) == Longs(rotated) + if next.journal.mtime == LATE then 0 else 1
  {
    var more := rotated + [next];
    assert more[..|rotated|] == rotated;
    forall k | 0 <= k < |more| ensures IsShort(more[k]) || IsLong(more[k], until) {
      assert k < |rotated| ==> more[k] == rotated[k] && (IsShort(rotated[k]) || IsLong(rotated[k], before));
    }
    forall i, j | 0 <= i < j < |more| && more[i].journal.mtime < LATE && more[j].journal.mtime < LATE
      ensures more[i].journal.mtime < more[j].journal.mtime
    {
      assert IsShort(rotated[i]) || IsLong(rotated[i], before);
    }
  }

  /* ---------- What the size limit removes of them ---------- */

  lemma {:induction false} NoneRemoved(stem: string, rotated: seq<Rotated>, doomed: seq<LogFile>)
    requires forall k | 0 <= k < |rotated| :: RotatedFile(stem, rotated[k]) !in doomed
    ensures Remaining(stem, rotated, doomed) == rotated && Removed(stem, rotated, doomed) == []
  {
    if rotated != [] {
      NoneRemoved(stem, rotated[..|rotated| - 1], doomed);
    }
  }

  lemma {:induction false} OneRemoved(stem: string, rotated: seq<Rotated>, at: nat)
    requires DistinctSlots(rotated) && at < |rotated|
    ensures var doomed := [RotatedFile(stem, rotated[at])];
            Remaining(stem, rotated, doomed) == rotated[..at] + rotated[at + 1..] && Removed(stem, rotated, doomed) == [rotated[at]]
  {
    var doomed, n := [RotatedFile(stem, rotated[at])], |rotated| - 1;
    var front := rotated[..n];
    SlotNamesDiffer(stem, rotated[at].slot, rotated[n].slot);
    if at == n {
      forall k | 0 <= k < n ensures RotatedFile(stem, front[k]) !in doomed {
        SlotNamesDiffer(stem, rotated[k].slot, rotated[at].slot);
      }
      NoneRemoved(stem, front, doomed);
    } else {
      OneRemoved(stem, front, at);
      assert rotated[at + 1..] == front[at + 1..] + [rotated[n]];
    }
  }

  lemma {:induction false} OneLess(rotated: seq<Rotated>, before: int, at: nat)
    requires Mixed(rotated, before) && at < |rotated| && rotated[at].journal.mtime < LATE
    ensures var rest := rotated[..at] + rotated[at + 1..];
            Mixed(rest, before) && Longs(rest) == Longs(rotated) - 1 && Longs(rotated) > 0
  {
    var rest, n := rotated[..at] + rotated[at + 1..], |rotated| - 1;
    if at == n {
      assert rest == rotated[..n];
    } else {
      var front := rotated[..n];
      OneLess(front, before, at);
      assert rest[..n - 1] == front[..at] + front[at + 1..] && rest[n - 1] == rotated[n];
    }
  }

  lemma {:induction false} FirstLong(rotated: seq<Rotated>, before: int) returns (at: nat)
    requires Mixed(rotated, before) && Longs(rotated) > 0
    ensures at < |rotated| && rotated[at].journal.mtime < LATE
    ensures forall k | 0 <= k < at :: IsShort(rotated[k])
  {
    var n := |rotated| - 1;
    if Longs(rotated[..n]) > 0 {
      at := FirstLong(rotated[..n], before);
    } else {
      at := n;
      AllShort(rotated[..n], before);
    }
  }

  lemma {:induction false} AllShort(rotated: seq<Rotated>, before: int)
    requires Mixed(rotated, before) && Longs(rotated) == 0
    ensures forall k | 0 <= k < |rotated| :: IsShort(rotated[k])
  {
    if rotated != [] {
      AllShort(rotated[..|rotated| - 1], before);
    }
  }

  lemma NothingIsPruned(stem: string, day: Day)
    requires TotalBytes(Journals(day)) <= MAX_TOTAL_LOG_BYTES
    ensures Pruned(stem, day, [], day, [])
  {
    var files := Listing(stem, day, []);
    TotalOfDay(stem, day);
    assert files == ActiveFile(stem, day.active) + RotatedFiles(stem, day.rotated);
    NoneRemoved(stem, day.rotated, []);
    assert Prunes(files, ActiveName(stem), []);
  }

  /** A little over the limit, only the oldest of the long files goes. */
  lemma OldestIsPruned(stem: string, day: Day, before: int, at: nat)
    requires DistinctSlots(day.rotated) && Mixed(day.rotated, before) && at < |day.rotated| && day.rotated[at].journal.mtime < LATE
    requires forall k | 0 <= k < at :: IsShort(day.rotated[k])
    requires MAX_TOTAL_LOG_BYTES < TotalBytes(Journals(day)) <= MAX_TOTAL_LOG_BYTES + MAX_DAILY_LOG_BYTES
    ensures Pruned(stem, day, [], Day(day.active, day.rotated[..at] + day.rotated[at + 1..]), [day.rotated[at]])
  {
    var files, d := Listing(stem, day, []), RotatedFile(stem, day.rotated[at]);
    var doomed := [d];
    assert files == ActiveFile(stem, day.active) + RotatedFiles(stem, day.rotated);
    assert IsLong(day.rotated[at], before);
    TotalOfDay(stem, day);
    OneTotal(d);
    OneRemoved(stem, day.rotated, at);
    IsListed(stem, day, [], at);
    LeqTotal(d.name, d.name);
    forall f | f in files && f.name != ActiveName(stem) && NotYounger(f, d) ensures f in doomed {
      OldestLong(stem, day, before, at, f);
    }
    assert Prunes(files, ActiveName(stem), doomed);
  }

  lemma OneTotal(f: LogFile)
    ensures TotalSize([f]) == f.size && TotalSize([f][..0]) == 0
  {
    assert [f][..0] == [];
  }

  lemma OldestLong(stem: string, day: Day, before: int, at: nat, f: LogFile)
    requires Mixed(day.rotated, before) && at < |day.rotated| && day.rotated[at].journal.mtime < LATE
    requires forall k | 0 <= k < at :: IsShort(day.rotated[k])
    requires f in ActiveFile(stem, day.active) + RotatedFiles(stem, day.rotated) && f.name != ActiveName(stem)
    requires NotYounger(f, RotatedFile(stem, day.rotated[at]))
    ensures f == RotatedFile(stem, day.rotated[at])
  {
    assert f in RotatedFiles(stem, day.rotated);
    TodaysNames(stem, day);
    var k :| 0 <= k < |day.rotated| && f == RotatedFile(stem, day.rotated[k]);
    assert IsShort(day.rotated[k]) || IsLong(day.rotated[k], before);
  }

  /* ---------- The run ---------- */

  /** A short line, and behind it at most four long files. */
  ghost predicate AfterShort(day: Day, before: int) {
    && Sound(day) && Mixed(day.rotated, before) && Longs(day.rotated) <= 4
    && day.active.Some? && day.active.value.mtime == LATE && Size(day.active.value.lines) == SHORT
  }

  /** A long line, and behind it at most three long files. */
  ghost predicate AfterLong(day: Day, before: int) {
    && Sound(day) && Mixed(day.rotated, before - 1) && Longs(day.rotated) <= 3
    && day.active.Some? && day.active.value.mtime == before - 1 && Size(day.active.value.lines) == MAX_DAILY_LOG_BYTES
  }

  /** A long line behind the short file. */
  lemma LongAppended(day: Day, line: Line, now: int)
    requires AfterShort(day, now) && HasSlot(day) && |line| == MAX_DAILY_LOG_BYTES && now < LATE
    ensures Overflows(day, line)
    ensures var after := Appended(day, line, now);
            && Sound(after) && Mixed(after.rotated, now) && Longs(after.rotated) == Longs(day.rotated) && |after.rotated| == |day.rotated| + 1
            && after.active.Some? && after.active.value.mtime == now && Size(after.active.value.lines) == MAX_DAILY_LOG_BYTES
            && TotalBytes(Journals(after)) == |after.rotated| - Longs(day.rotated) + (Longs(day.rotated) + 1) * MAX_DAILY_LOG_BYTES
            && Longs(day.rotated) < |after.rotated| <= MAX_LOG_ROTATION_CANDIDATES
  {
    var appended := Appended(day, line, now);
    var next := Rotated(FreeSlot(day.rotated, 1), day.active.value);
    assert appended.rotated == day.rotated + [next];
    SizeOfLine(line);
    MixedTotal(day.rotated, now);
    OneMore(day.rotated, next, now, now);
    AppendingKeepsSound(day, line, now);
    MixedDay(appended, now);
    SlotsRunOut(appended);
  }

  /** A long line rotates the short one; with four long files the oldest of them goes. */
  lemma LongStep(stem: string, day: Day, line: Line, now: int) returns (after: Day, gone: seq<Rotated>)
    requires AfterShort(day, now) && HasSlot(day) && |line| == MAX_DAILY_LOG_BYTES && now < LATE
    ensures Stepped(stem, day, Emit(line, now), after, gone) && AfterLong(after, now + 1)
    ensures |after.rotated| >= |day.rotated|
  {
    var appended := Appended(day, line, now);
    LongAppended(day, line, now);
    assert NotToday(stem, []);
    if Longs(day.rotated) < 4 {
      after, gone := appended, [];
      NothingIsPruned(stem, appended);
    } else {
      var at := FirstLong(appended.rotated, now);
      OldestIsPruned(stem, appended, now, at);
      OneLess(appended.rotated, now, at);
      gone := [appended.rotated[at]];
      after := Day(appended.active, appended.rotated[..at] + appended.rotated[at + 1..]);
    }
    StepKeepsSound(stem, day, Emit(line, now), after, gone);
  }

  /** A short line rotates the long one, and everything stays. */
  lemma ShortStep(stem: string, day: Day, line: Line, before: int) returns (after: Day, gone: seq<Rotated>)
    requires AfterLong(day, before) && HasSlot(day) && |line| == SHORT && before <= LATE
    ensures Stepped(stem, day, Emit(line, LATE), after, gone) && AfterShort(after, before)
    ensures |after.rotated| == |day.rotated| + 1
  {
    var appended := Appended(day, line, LATE);
    var next := Rotated(FreeSlot(day.rotated, 1), day.active.value);
    assert appended.rotated == day.rotated + [next];
    SizeOfLine(line);
    OneMore(day.rotated, next, before - 1, before);
    AppendingKeepsSound(day, line, LATE);
    MixedDay(appended, before);
    SlotsRunOut(appended);
    assert NotToday(stem, []);
    after, gone := appended, [];
    NothingIsPruned(stem, appended);
    StepKeepsSound(stem, day, Emit(line, LATE), after, gone);
  }

  lemma RunNext(stem: string, days: seq<Day>, events: seq<Event>, gone: seq<seq<Rotated>>, event: Event, after: Day, g: seq<Rotated>)
    requires Run(stem, days, events, gone) && IsLine(event) && Stepped(stem, days[|events|], event, after, g)
    ensures Run(stem, days + [after], events + [event], gone + [g])
  {
  }

  /** A run of emits alone. */
  ghost predicate EmitRun(stem: string, days: seq<Day>, events: seq<Event>, gone: seq<seq<Rotated>>) {
    Run(stem, days, events, gone) && forall k | 0 <= k < |events| :: events[k].Emit?
  }

  lemma EmitNext(stem: string, days: seq<Day>, events: seq<Event>, gone: seq<seq<Rotated>>, event: Event, after: Day, g: seq<Rotated>)
    returns (d: seq<Day>, e: seq<Event>, all: seq<seq<Rotated>>)
    requires EmitRun(stem, days, events, gone) && IsLine(event) && event.Emit? && Stepped(stem, days[|events|], event, after, g)
    ensures EmitRun(stem, d, e, all) && d[|e|] == after
  {
    d, e, all := days + [after], events + [event], gone + [g];
    RunNext(stem, days, events, gone, event, after, g);
  }

  lemma BothOverflow(day: Day, now: int, long: Line)
    requires (AfterShort(day, now) || AfterLong(day, now)) && |long| == MAX_DAILY_LOG_BYTES
    ensures CanTake(day, long) <==> HasSlot(day)
    ensures HasSlot(day) ==> |day.rotated| < MAX_LOG_ROTATION_CANDIDATES
  {
    SlotsRunOut(day);
  }

  /** A long line and then a short one fill at least one more slot, or find none. */
  lemma FillSlot(stem: string, days: seq<Day>, events: seq<Event>, gone: seq<seq<Rotated>>, now: int, short: Line, long: Line)
    returns (d: seq<Day>, e: seq<Event>, g: seq<seq<Rotated>>)
    requires EmitRun(stem, days, events, gone) && |short| == SHORT && |long| == MAX_DAILY_LOG_BYTES && now < LATE
    requires AfterShort(days[|events|], now) && HasSlot(days[|events|])
    ensures EmitRun(stem, d, e, g)
    ensures CanTake(d[|e|], long) ==> AfterShort(d[|e|], now + 1) && |d[|e|].rotated| > |days[|events|].rotated|
  {
    var mid, gone1 := LongStep(stem, days[|events|], long, now);
    BothOverflow(mid, now + 1, long);
    d, e, g := EmitNext(stem, days, events, gone, Emit(long, now), mid, gone1);
    if HasSlot(mid) {
      var after, gone2 := ShortStep(stem, mid, short, now + 1);
      d, e, g := EmitNext(stem, d, e, g, Emit(short, LATE), after, gone2);
    }
  }

  /** The run after `events`, up to the first line that finds no slot. */
  lemma {:induction false} FillSlots(stem: string, days: seq<Day>, events: seq<Event>, gone: seq<seq<Rotated>>, now: int, short: Line, long: Line)
    returns (d: seq<Day>, e: seq<Event>, g: seq<seq<Rotated>>)
    requires EmitRun(stem, days, events, gone) && AfterShort(days[|events|], now) && |short| == SHORT && |long| == MAX_DAILY_LOG_BYTES
    requires now + MAX_LOG_ROTATION_CANDIDATES - |days[|events|].rotated| < LATE
    ensures EmitRun(stem, d, e, g) && !CanTake(d[|e|], long)
    decreases MAX_LOG_ROTATION_CANDIDATES - |days[|events|].rotated|
  {
    var day := days[|events|];
    BothOverflow(day, now, long);
    if HasSlot(day) {
      d, e, g := FillSlot(stem, days, events, gone, now, short, long);
      if CanTake(d[|e|], long) {
        d, e, g := FillSlots(stem, d, e, g, now + 1, short, long);
      }
    } else {
      d, e, g := days, events, gone;
    }
  }

  /** There is a run of emits alone after which all slots are taken and a line is refused. */
  lemma EmitsRunOutOfSlots(stem: string, short: Line, long: Line) returns (days: seq<Day>, events: seq<Event>, gone: seq<seq<Rotated>>)
    requires |short| == SHORT && |long| == MAX_DAILY_LOG_BYTES
    ensures EmitRun(stem, days, events, gone) && !CanTake(days[|events|], long)
    ensures |days[|events|].rotated| == MAX_LOG_ROTATION_CANDIDATES
  {
    var first := Day(Some(Journal([] + [short], LATE)), []);
    var empty := Day(None, []);
    SizeOfLine(short);
    assert [] + [short] == [short];
    days, events, gone := [empty, first], [Emit(short, LATE)], [[]];
    assert Stepped(stem, empty, Emit(short, LATE), first, []);
    StepKeepsSound(stem, empty, Emit(short, LATE), first, []);
    days, events, gone := FillSlots(stem, days, events, gone, 0, short, long);
    EveryLineIsKeptOrGone(stem, days, events, gone);
    SlotsRunOut(days[|events|]);
  }
}
