/** Whole days of logging: what every run of starts and emits keeps. */
module LogDays {
  import opened ActiveLog
  import opened LogRetention
  import opened Wrappers

  /** A record, or a start of the program. */
  datatype Event = Emit(line: Line, now: int) | Start

  /** The line fits, or a slot is free for what is in its way. */
  predicate CanTake(day: Day, line: Line) {
    !Overflows(day, line) || HasSlot(day)
  }

  /** The active file is due to be moved into a slot. */
  predicate Rotates(day: Day, event: Event) {
    match event
    case Emit(line, _) => Overflows(day, line) && HasSlot(day)
    case Start => Full(day)
  }

  ghost predicate Stepped(stem: string, day: Day, event: Event, after: Day, gone: seq<Rotated>) {
    match event
    case Emit(line, now) =>
      if CanTake(day, line) then Emitted(stem, day, line, now, after, gone) else after == day && gone == []
    case Start => Started(stem, day, after, gone)
  }

  /** A record has a line end, and fits into a file of its own. */
  predicate IsLine(event: Event) {
    event.Emit? ==> 0 < |event.line| <= MAX_DAILY_LOG_BYTES
  }

  /** A run of one day, with what maintenance removes at each step. */
  ghost predicate Run(stem: string, days: seq<Day>, events: seq<Event>, gone: seq<seq<Rotated>>) {
    && |days| == |events| + 1 && |gone| == |events| && days[0] == Day(None, [])
    && (forall k | 0 <= k < |events| :: IsLine(events[k]))
    && forall k | 0 <= k < |events| :: Stepped(stem, days[k], events[k], days[k + 1], gone[k])
  }

  /** The line an event adds, if any. */
  function NewLine(day: Day, event: Event): seq<Line> {
    if event.Emit? && CanTake(day, event.line) then [event.line] else []
  }

  /** The lines of the emits that succeeded. */
  function Accepted(days: seq<Day>, events: seq<Event>): seq<Line>
    requires |events| <= |days|
  {
    if events == [] then []
    else
      var n := |events| - 1;
      Accepted(days, events[..n]) + NewLine(days[n], events[n])
  }

  /** How often a line occurs. */
  function Count(lines: seq<Line>, x: Line): nat {
    if lines == [] then 0 else Count(lines[..|lines| - 1], x) + if lines[|lines| - 1] == x then 1 else 0
  }

  function CountIn(files: seq<Rotated>, x: Line): nat {
    if files == [] then 0 else CountIn(files[..|files| - 1], x) + Count(files[|files| - 1].journal.lines, x)
  }

  function CountDay(day: Day, x: Line): nat {
    CountIn(day.rotated, x) + if day.active.Some? then Count(day.active.value.lines, x) else 0
  }

  /** How often a line occurs in the files that were removed. */
  function CountGone(gone: seq<seq<Rotated>>, x: Line): nat {
    if gone == [] then 0 else CountGone(gone[..|gone| - 1], x) + CountIn(gone[|gone| - 1], x)
  }

  lemma RunFront(stem: string, days: seq<Day>, events: seq<Event>, gone: seq<seq<Rotated>>)
    requires Run(stem, days, events, gone) && events != []
    ensures var n := |events| - 1;
            && Run(stem, days[..n + 1], events[..n], gone[..n]) && days[..n + 1][n] == days[n]
            && Stepped(stem, days[n], events[n], days[n + 1], gone[n])
            && IsLine(events[n])
  {
  }

  lemma {:induction false} AcceptedFront(days: seq<Day>, events: seq<Event>, n: nat)
    requires |events| <= n <= |days|
    ensures Accepted(days[..n], events) == Accepted(days, events)
  {
    if events != [] {
      AcceptedFront(days, events[..|events| - 1], n);
    }
  }

  /* ---------- Whatever the clock does ---------- */

  ghost predicate SlotsWithin(rotated: seq<Rotated>, limit: nat) {
    forall k | 0 <= k < |rotated| :: 1 <= rotated[k].slot <= limit
  }

  /** Each file has a slot of its own, and none is too long. */
  ghost predicate Sound(day: Day) {
    && DistinctSlots(day.rotated) && SlotsWithin(day.rotated, MAX_LOG_ROTATION_CANDIDATES)
    && (forall k | 0 <= k < |day.rotated| :: Size(day.rotated[k].journal.lines) <= MAX_DAILY_LOG_BYTES)
    && (day.active.Some? ==> Size(day.active.value.lines) <= MAX_DAILY_LOG_BYTES)
  }

  /** A removed file goes whole, and every other file stays as it is. */
  lemma {:induction false} PruningConserves(stem: string, rotated: seq<Rotated>, doomed: seq<LogFile>, x: Line)
    ensures CountIn(rotated, x) == CountIn(Remaining(stem, rotated, doomed), x) + CountIn(Removed(stem, rotated, doomed), x)
  {
    if rotated != [] {
      var n := |rotated| - 1;
      PruningConserves(stem, rotated[..n], doomed, x);
      var kept, removed := Remaining(stem, rotated[..n], doomed), Removed(stem, rotated[..n], doomed);
      if RotatedFile(stem, rotated[n]) in doomed {
        assert Remaining(stem, rotated, doomed) == kept;
        assert Removed(stem, rotated, doomed) == removed + [rotated[n]];
        CountOneMore(removed, rotated[n], x);
      } else {
        assert Remaining(stem, rotated, doomed) == kept + [rotated[n]];
        assert Removed(stem, rotated, doomed) == removed;
        CountOneMore(kept, rotated[n], x);
      }
    }
  }

  lemma CountOneMore(files: seq<Rotated>, file: Rotated, x: Line)
    ensures CountIn(files + [file], x) == CountIn(files, x) + Count(file.journal.lines, x)
  {
    assert (files + [file])[..|files|] == files;
  }

  /** Remaining files keep their slots. */
  lemma {:induction false} RemainingIsDistinct(stem: string, rotated: seq<Rotated>, doomed: seq<LogFile>)
    requires DistinctSlots(rotated)
    ensures DistinctSlots(Remaining(stem, rotated, doomed))
    ensures forall k | 0 <= k < |Remaining(stem, rotated, doomed)| :: Remaining(stem, rotated, doomed)[k] in rotated
  {
    RemainingMembers(stem, rotated, doomed);
    if rotated != [] {
      var n := |rotated| - 1;
      RemainingIsDistinct(stem, rotated[..n], doomed);
      RemainingMembers(stem, rotated[..n], doomed);
    }
  }

  lemma PruningKeepsSound(stem: string, day: Day, others: seq<LogFile>, after: Day, gone: seq<Rotated>)
    requires Sound(day) && Pruned(stem, day, others, after, gone)
    ensures Sound(after) && after.active == day.active
    ensures forall x :: CountDay(day, x) == CountDay(after, x) + CountIn(gone, x)
    ensures forall r | r in gone :: r in day.rotated && r !in after.rotated
  {
    var doomed :| Prunes(Listing(stem, day, others), ActiveName(stem), doomed)
                  && after == Day(day.active, Remaining(stem, day.rotated, doomed)) && gone == Removed(stem, day.rotated, doomed);
    forall x ensures CountDay(day, x) == CountDay(after, x) + CountIn(gone, x) {
      PruningConserves(stem, day.rotated, doomed, x);
    }
    RemainingIsSound(stem, day, doomed);
    RemainingMembers(stem, day.rotated, doomed);
    RemovedMembers(stem, day.rotated, doomed);
  }

  lemma RemainingIsSound(stem: string, day: Day, doomed: seq<LogFile>)
    requires Sound(day)
    ensures Sound(Day(day.active, Remaining(stem, day.rotated, doomed)))
  {
    RemainingIsDistinct(stem, day.rotated, doomed);
    var kept := Remaining(stem, day.rotated, doomed);
    forall k | 0 <= k < |kept| ensures 1 <= kept[k].slot <= MAX_LOG_ROTATION_CANDIDATES && Size(kept[k].journal.lines) <= MAX_DAILY_LOG_BYTES {
      var i :| 0 <= i < |day.rotated| && day.rotated[i] == kept[k];
    }
  }

  lemma {:induction false} RemovedMembers(stem: string, rotated: seq<Rotated>, doomed: seq<LogFile>)
    ensures forall r :: r in Removed(stem, rotated, doomed) <==> r in rotated && RotatedFile(stem, r) in doomed
  {
    if rotated != [] {
      RemovedMembers(stem, rotated[..|rotated| - 1], doomed);
      assert rotated == rotated[..|rotated| - 1] + [rotated[|rotated| - 1]];
    }
  }

  lemma RotatingKeepsSound(day: Day)
    requires Sound(day) && day.active.Some? && HasSlot(day)
    ensures Sound(RotatedDay(day)) && forall x :: CountDay(RotatedDay(day), x) == CountDay(day, x)
  {
    FreeSlotIsFirst(day.rotated, 1);
    assert forall k | 0 <= k < |day.rotated| :: Taken(day.rotated, day.rotated[k].slot);
    var r := RotatedDay(day).rotated;
    assert r[..|r| - 1] == day.rotated;
  }

  lemma WritingCounts(day: Day, line: Line, now: int, x: Line)
    ensures CountDay(Written(day, line, now), x) == CountDay(day, x) + if x == line then 1 else 0
  {
    var was := if day.active.Some? then day.active.value.lines else [];
    var lines := was + [line];
    assert Written(day, line, now).active.value.lines == lines && lines[..|lines| - 1] == was && lines[|lines| - 1] == line;
    assert Count(lines, x) == Count(was, x) + if line == x then 1 else 0;
  }

  lemma AppendingKeepsSound(day: Day, line: Line, now: int)
    requires Sound(day) && CanTake(day, line) && |line| <= MAX_DAILY_LOG_BYTES
    ensures Sound(Appended(day, line, now)) && Appended(day, line, now).active.Some?
    ensures forall x :: CountDay(Appended(day, line, now), x) == CountDay(day, x) + if x == line then 1 else 0
  {
    SizeOfLine(line);
    var roomy := if Overflows(day, line) then RotatedDay(day) else day;
    if Overflows(day, line) {
      RotatingKeepsSound(day);
    }
    forall x ensures CountDay(Appended(day, line, now), x) == CountDay(day, x) + if x == line then 1 else 0 {
      WritingCounts(roomy, line, now, x);
    }
    var was := if roomy.active.Some? then roomy.active.value.lines else [];
    assert (was + [line])[..|was|] == was;
  }

  /** One event: what was recorded before and the line it accepts are recorded now or gone with
      the files it removed; a refused line changes nothing. */
  lemma StepKeepsSound(stem: string, day: Day, event: Event, after: Day, gone: seq<Rotated>)
    requires Sound(day) && Stepped(stem, day, event, after, gone) && IsLine(event)
    ensures Sound(after)
    ensures forall x :: CountDay(day, x) + (if event.Emit? && CanTake(day, event.line) && event.line == x then 1 else 0)
                        == CountDay(after, x) + CountIn(gone, x)
  {
    match event
    case Start =>
      var others, kept :| NotToday(stem, others) && Pruned(stem, day, others, kept, gone) && after == Restarted(kept);
      PruningKeepsSound(stem, day, others, kept, gone);
      if Full(kept) && HasSlot(kept) {
        RotatingKeepsSound(kept);
      }
    case Emit(line, now) =>
      if CanTake(day, line) {
        var appended := Appended(day, line, now);
        AppendingKeepsSound(day, line, now);
        if !(after == appended && gone == []) {
          var others :| NotToday(stem, others) && Pruned(stem, appended, others, after, gone);
          PruningKeepsSound(stem, appended, others, after, gone);
        }
      }
  }

  /** In every run, whatever the clock does: files have slots of their own and stay within their
      limit, and every accepted line is in exactly one present file or in one removed whole. */
  lemma {:induction false} EveryLineIsKeptOrGone(stem: string, days: seq<Day>, events: seq<Event>, gone: seq<seq<Rotated>>)
    requires Run(stem, days, events, gone)
    ensures Sound(days[|events|])
    ensures forall x :: Count(Accepted(days, events), x) == CountDay(days[|events|], x) + CountGone(gone, x)
  {
    if events != [] {
      var n := |events| - 1;
      RunFront(stem, days, events, gone);
      EveryLineIsKeptOrGone(stem, days[..n + 1], events[..n], gone[..n]);
      AcceptedFront(days, events[..n], n + 1);
      StepKeepsSound(stem, days[n], events[n], days[n + 1], gone[n]);
      forall x ensures Count(Accepted(days, events), x) == CountDay(days[n + 1], x) + CountGone(gone, x) {
        AcceptedNext(days, events, x);
      }
    }
  }

  lemma AcceptedNext(days: seq<Day>, events: seq<Event>, x: Line)
    requires 0 < |events| <= |days|
    ensures var n := |events| - 1;
            Count(Accepted(days, events), x) == Count(Accepted(days, events[..n]), x)
              + (if events[n].Emit? && CanTake(days[n], events[n].line) && events[n].line == x then 1 else 0)
  {
    var n := |events| - 1;
    var before := Accepted(days, events[..n]);
    assert before + [] == before;
    if events[n].Emit? {
      assert (before + [events[n].line])[..|before|] == before;
    }
  }

  /* ---------- When slots run out ---------- */

  /** A free slot is missing exactly when all hundred are taken: an emit fails then and only then,
      when its line does not fit. */
  lemma SlotsRunOut(day: Day)
    requires Sound(day)
    ensures HasSlot(day) <==> |day.rotated| < MAX_LOG_ROTATION_CANDIDATES
    ensures |day.rotated| <= MAX_LOG_ROTATION_CANDIDATES
  {
    FreeSlotIsFirst(day.rotated, 1);
    SlotsFit(day.rotated, MAX_LOG_ROTATION_CANDIDATES);
    if HasSlot(day) {
      OneIsFree(day.rotated, FreeSlot(day.rotated, 1), MAX_LOG_ROTATION_CANDIDATES);
    } else {
      TakenSlotsAreFew(day.rotated, MAX_LOG_ROTATION_CANDIDATES);
    }
  }

  lemma SlotsFit(rotated: seq<Rotated>, limit: nat)
    requires DistinctSlots(rotated) && SlotsWithin(rotated, limit)
    ensures |rotated| <= limit
  {
    SlotsAre(limit);
    DistinctFit(rotated, Slots(limit));
  }

  lemma OneIsFree(rotated: seq<Rotated>, free: nat, limit: nat)
    requires DistinctSlots(rotated) && SlotsWithin(rotated, limit) && 1 <= free <= limit && !Taken(rotated, free)
    ensures |rotated| < limit
  {
    SlotsAre(limit);
    var others := Slots(limit) - {free};
    assert Slots(limit) == others + {free};
    forall k | 0 <= k < |rotated| ensures rotated[k].slot in others {
      assert rotated[k].slot == free ==> Taken(rotated, free);
    }
    DistinctFit(rotated, others);
  }

  function Slots(n: nat): set<nat> {
    if n == 0 then {} else Slots(n - 1) + {n}
  }

  lemma {:induction false} SlotsAre(n: nat)
    ensures |Slots(n)| == n && forall k: nat :: k in Slots(n) <==> 1 <= k <= n
  {
    if n > 0 {
      SlotsAre(n - 1);
    }
  }

  lemma {:induction false} DistinctFit(rotated: seq<Rotated>, slots: set<nat>)
    requires DistinctSlots(rotated) && forall k | 0 <= k < |rotated| :: rotated[k].slot in slots
    ensures |rotated| <= |slots|
  {
    if rotated != [] {
      var n := |rotated| - 1;
      DistinctFit(rotated[..n], slots - {rotated[n].slot});
    }
  }

  lemma {:induction false} TakenSlotsAreFew(rotated: seq<Rotated>, n: nat)
    requires forall k | 1 <= k <= n :: Taken(rotated, k)
    ensures n <= |rotated|
  {
    if n > 0 {
      assert Taken(rotated, n);
      var at :| 0 <= at < |rotated| && rotated[at].slot == n;
      var rest := rotated[..at] + rotated[at + 1..];
      forall k | 1 <= k <= n - 1 ensures Taken(rest, k) {
        assert Taken(rotated, k);
        var j :| 0 <= j < |rotated| && rotated[j].slot == k;
        assert rest[if j < at then j else j - 1].slot == k;
      }
      TakenSlotsAreFew(rest, n - 1);
    }
  }

  /* ---------- When rotated files age in order ---------- */

  /** The active file is younger than every rotated one. */
  ghost predicate YoungestLast(day: Day) {
    day.active.Some? ==> forall k | 0 <= k < |day.rotated| :: day.rotated[k].journal.mtime < day.active.value.mtime
  }

  /** Whatever is rotated is younger than what was rotated before and is still there. */
  ghost predicate RotatesInOrder(days: seq<Day>, events: seq<Event>)
    requires |events| <= |days|
  {
    forall k | 0 <= k < |events| && Rotates(days[k], events[k]) :: YoungestLast(days[k])
  }

  lemma {:induction false} LinesSplit(rotated: seq<Rotated>, n: nat)
    requires n <= |rotated|
    ensures Lines(rotated) == Lines(rotated[..n]) + Lines(rotated[n..])
  {
    if n == |rotated| {
      assert rotated[..n] == rotated;
    } else {
      var front := rotated[..|rotated| - 1];
      LinesSplit(front, n);
      assert front[..n] == rotated[..n];
      var tail := rotated[n..];
      assert front[n..] == rotated[n..|rotated| - 1];
      assert tail[..|tail| - 1] == rotated[n..|rotated| - 1];
    }
  }

  lemma RotatingKeepsOrder(day: Day)
    requires InOrder(day.rotated) && YoungestLast(day) && day.active.Some?
    ensures InOrder(RotatedDay(day).rotated) && Recorded(RotatedDay(day)) == Recorded(day)
  {
    var r := RotatedDay(day).rotated;
    assert r[..|r| - 1] == day.rotated;
  }

  lemma DroppingKeepsLines(day: Day, n: nat) returns (dropped: nat)
    requires n <= |day.rotated|
    ensures dropped <= |Recorded(day)| && Recorded(Day(day.active, day.rotated[n..])) == Recorded(day)[dropped..]
  {
    LinesSplit(day.rotated, n);
    dropped := |Lines(day.rotated[..n])|;
  }

  lemma PruningKeepsOrder(stem: string, day: Day, others: seq<LogFile>, after: Day, gone: seq<Rotated>) returns (dropped: nat)
    requires Sound(day) && InOrder(day.rotated) && NotToday(stem, others)
    requires Pruned(stem, day, others, after, gone)
    ensures InOrder(after.rotated) && dropped <= |Recorded(day)| && Recorded(after) == Recorded(day)[dropped..]
    ensures YoungestLast(day) ==> YoungestLast(after)
    ensures after.active == day.active
  {
    var n := PruningDropsOldest(stem, day, others, after, gone);
    dropped := DroppingKeepsLines(day, n);
  }

  lemma EmitKeepsOrder(stem: string, day: Day, line: Line, now: int, after: Day, gone: seq<Rotated>) returns (dropped: nat)
    requires Sound(day) && InOrder(day.rotated) && CanTake(day, line) && (Overflows(day, line) ==> YoungestLast(day))
    requires |line| <= MAX_DAILY_LOG_BYTES && Emitted(stem, day, line, now, after, gone)
    ensures InOrder(after.rotated)
    ensures dropped <= |Recorded(day) + [line]| && Recorded(after) == (Recorded(day) + [line])[dropped..]
  {
    dropped := 0;
    var appended := Appended(day, line, now);
    AppendingRecords(day, line, now);
    AppendingKeepsSound(day, line, now);
    assert InOrder(appended.rotated);
    if after != appended || gone != [] {
      var others :| NotToday(stem, others) && Pruned(stem, appended, others, after, gone);
      dropped := PruningKeepsOrder(stem, appended, others, after, gone);
    }
  }

  lemma StartKeepsOrder(stem: string, day: Day, after: Day, gone: seq<Rotated>) returns (dropped: nat)
    requires Sound(day) && InOrder(day.rotated) && (Full(day) ==> YoungestLast(day)) && Started(stem, day, after, gone)
    ensures InOrder(after.rotated) && dropped <= |Recorded(day)| && Recorded(after) == Recorded(day)[dropped..]
  {
    var others, kept :| NotToday(stem, others) && Pruned(stem, day, others, kept, gone) && after == Restarted(kept);
    dropped := PruningKeepsOrder(stem, day, others, kept, gone);
    if Full(kept) && HasSlot(kept) {
      RotatingKeepsOrder(kept);
    }
  }

  /** One event keeps the order, adds its line at the end, and removes only the oldest lines. */
  lemma StepKeepsOrder(stem: string, day: Day, event: Event, after: Day, gone: seq<Rotated>) returns (dropped: nat)
    requires Sound(day) && InOrder(day.rotated) && (Rotates(day, event) ==> YoungestLast(day))
    requires Stepped(stem, day, event, after, gone) && IsLine(event)
    ensures InOrder(after.rotated)
    ensures dropped <= |Recorded(day) + NewLine(day, event)| && Recorded(after) == (Recorded(day) + NewLine(day, event))[dropped..]
  {
    dropped := 0;
    if event.Emit? && CanTake(day, event.line) {
      dropped := EmitKeepsOrder(stem, day, event.line, event.now, after, gone);
    } else {
      assert Recorded(day) + [] == Recorded(day);
      if event == Start {
        dropped := StartKeepsOrder(stem, day, after, gone);
      }
    }
  }

  /** In every run whose rotated files age in order, the files hold
      exactly the last of the accepted lines, in the order they were emitted. */
  lemma {:induction false} LastLinesAreKeptInOrder(stem: string, days: seq<Day>, events: seq<Event>, gone: seq<seq<Rotated>>)
    returns (dropped: nat)
    requires Run(stem, days, events, gone) && RotatesInOrder(days, events)
    ensures InOrder(days[|events|].rotated) && dropped <= |Accepted(days, events)|
    ensures Recorded(days[|events|]) == Accepted(days, events)[dropped..]
  {
    dropped := 0;
    if events != [] {
      var n := |events| - 1;
      RunFront(stem, days, events, gone);
      EveryLineIsKeptOrGone(stem, days[..n + 1], events[..n], gone[..n]);
      var before := LastLinesAreKeptInOrder(stem, days[..n + 1], events[..n], gone[..n]);
      AcceptedFront(days, events[..n], n + 1);
      dropped := NextIsKept(stem, days[n], events[n], days[n + 1], gone[n], Accepted(days, events[..n]), before);
    }
  }

  lemma NextIsKept(stem: string, day: Day, event: Event, after: Day, gone: seq<Rotated>, lines: seq<Line>, before: nat)
    returns (dropped: nat)
    requires Sound(day) && InOrder(day.rotated) && (Rotates(day, event) ==> YoungestLast(day))
    requires Stepped(stem, day, event, after, gone) && IsLine(event)
    requires before <= |lines| && Recorded(day) == lines[before..]
    ensures InOrder(after.rotated) && dropped <= |lines + NewLine(day, event)|
    ensures Recorded(after) == (lines + NewLine(day, event))[dropped..]
  {
    var more := StepKeepsOrder(stem, day, event, after, gone);
    dropped := before + more;
    DroppedTwice(lines, before, NewLine(day, event), more);
  }

  lemma DroppedTwice(lines: seq<Line>, before: nat, next: seq<Line>, more: nat)
    requires before <= |lines| && more <= |lines[before..] + next|
    ensures (lines[before..] + next)[more..] == (lines + next)[before + more..]
  {
    assert lines[before..] + next == (lines + next)[before..];
  }

  const MAX_ROTATED := 9

  /** Few files, in the first ten slots. */
  ghost predicate Compact(day: Day) {
    && Tight(Journals(day)) && LastIsFull(day)
    && |day.rotated| <= MAX_ROTATED && SlotsWithin(day.rotated, MAX_ROTATED + 1)
  }

  /** With so few rotated files a slot is free among the first ten. */
  lemma FreeSlotIsLow(day: Day)
    requires |day.rotated| <= MAX_ROTATED
    ensures HasSlot(day) && 1 <= FreeSlot(day.rotated, 1) <= MAX_ROTATED + 1
  {
    FreeSlotIsFirst(day.rotated, 1);
    TakenSlotsAreFew(day.rotated, FreeSlot(day.rotated, 1) - 1);
  }

  /** A day within the total limit has at most nine files. */
  lemma FewFiles(day: Day)
    requires Tight(Journals(day)) && TotalBytes(Journals(day)) <= MAX_TOTAL_LOG_BYTES
    ensures |Journals(day)| <= MAX_ROTATED
  {
    NeighboursAreLarge(Journals(day));
  }

  lemma DroppingKeepsTight(day: Day, n: nat)
    requires Tight(Journals(day)) && n <= |day.rotated|
    ensures Tight(Journals(Day(day.active, day.rotated[n..])))
  {
    var was, now := Journals(day), Journals(Day(day.active, day.rotated[n..]));
    assert now == was[n..];
    forall i | 0 <= i < |now| - 1 ensures Size(now[i].lines) + FirstLength(now[i + 1]) > MAX_DAILY_LOG_BYTES {
      assert now[i] == was[n + i] && now[i + 1] == was[n + i + 1];
    }
  }

  /** The size limit leaves few files beside the active one. */
  lemma PruningKeepsCompact(stem: string, day: Day, others: seq<LogFile>, after: Day, gone: seq<Rotated>)
    requires Tight(Journals(day)) && LastIsFull(day) && SlotsWithin(day.rotated, MAX_ROTATED + 1) && Sound(day) && InOrder(day.rotated)
    requires NotToday(stem, others) && Pruned(stem, day, others, after, gone)
    ensures Compact(after) && after.active == day.active && (after.active.Some? ==> |after.rotated| < MAX_ROTATED)
  {
    var n := PruningDropsOldest(stem, day, others, after, gone);
    DroppingKeepsCompact(day, n);
  }

  lemma DroppingKeepsCompact(day: Day, n: nat)
    requires Tight(Journals(day)) && LastIsFull(day) && SlotsWithin(day.rotated, MAX_ROTATED + 1) && n <= |day.rotated|
    requires var after := Day(day.active, day.rotated[n..]); after.rotated == [] || TotalBytes(Journals(after)) <= MAX_TOTAL_LOG_BYTES
    ensures var after := Day(day.active, day.rotated[n..]); Compact(after) && (after.active.Some? ==> |after.rotated| < MAX_ROTATED)
  {
    var after := Day(day.active, day.rotated[n..]);
    DroppingKeepsTight(day, n);
    if after.rotated != [] {
      FewFiles(after);
      assert |Journals(after)| == |after.rotated| + if after.active.Some? then 1 else 0;
      assert after.rotated[|after.rotated| - 1] == day.rotated[|day.rotated| - 1];
    }
  }

  lemma EmitKeepsCompact(stem: string, day: Day, line: Line, now: int, after: Day, gone: seq<Rotated>)
    requires Compact(day) && Sound(day) && InOrder(day.rotated) && 0 < |line| <= MAX_DAILY_LOG_BYTES
    requires (Overflows(day, line) ==> YoungestLast(day)) && Emitted(stem, day, line, now, after, gone)
    ensures Compact(after)
  {
    var appended := Appended(day, line, now);
    FreeSlotIsLow(day);
    AppendingKeepsSound(day, line, now);
    AppendingKeepsTight(day, line, now);
    assert SlotsWithin(appended.rotated, MAX_ROTATED + 1) && InOrder(appended.rotated);
    if after != appended || gone != [] || Overflows(day, line) {
      var others :| NotToday(stem, others) && Pruned(stem, appended, others, after, gone);
      PruningKeepsCompact(stem, appended, others, after, gone);
    }
  }

  lemma StartKeepsCompact(stem: string, day: Day, after: Day, gone: seq<Rotated>)
    requires Compact(day) && Sound(day) && InOrder(day.rotated) && Started(stem, day, after, gone)
    ensures Compact(after)
  {
    var others, kept :| NotToday(stem, others) && Pruned(stem, day, others, kept, gone) && after == Restarted(kept);
    PruningKeepsCompact(stem, day, others, kept, gone);
    FreeSlotIsLow(kept);
    if Full(kept) {
      assert Journals(after) == Journals(kept);
    }
  }

  /** In every run whose rotated files age in order, no emit and no start ever lacks a slot, and no
      more than ten of the hundred slots are ever used. */
  lemma {:induction false} TenSlotsSuffice(stem: string, days: seq<Day>, events: seq<Event>, gone: seq<seq<Rotated>>)
    requires Run(stem, days, events, gone) && RotatesInOrder(days, events)
    ensures Compact(days[|events|]) && HasSlot(days[|events|])
  {
    if events == [] {
      FreeSlotIsLow(days[0]);
    } else {
      var n := |events| - 1;
      RunFront(stem, days, events, gone);
      TenSlotsSuffice(stem, days[..n + 1], events[..n], gone[..n]);
      EveryLineIsKeptOrGone(stem, days[..n + 1], events[..n], gone[..n]);
      var _ := LastLinesAreKeptInOrder(stem, days[..n + 1], events[..n], gone[..n]);
      match events[n] {
        case Start => StartKeepsCompact(stem, days[n], days[n + 1], gone[n]);
        case Emit(line, now) => EmitKeepsCompact(stem, days[n], line, now, days[n + 1], gone[n]);
      }
      FreeSlotIsLow(days[n + 1]);
    }
  }
}
