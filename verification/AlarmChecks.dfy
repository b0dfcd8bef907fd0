/** Polling checks of the alarm store, one after another. */
module AlarmChecks {
  import opened Wrappers
  import opened Alarms

  datatype Store = Store(alarms: seq<Alarm>, lastChecked: Option<int>)

  datatype Check = Check(now: int, catchUp: nat)

  datatype Due = Due(id: string, scheduledAt: int)

  /* ---------- One check ---------- */

  /** Where the window of a check begins. */
  function WindowStart(lastChecked: Option<int>, now: int, catchUp: nat): int {
    if catchUp == 0 then now
    else if lastChecked.Some? && lastChecked.value <= now && lastChecked.value > now - catchUp then lastChecked.value
    else now - catchUp
  }

  ghost function Latest(a: Alarm, start: int, end: int, clock: Clock): (r: Option<int>)
    ensures r.Some? ==> IsLatest(a, start, end, clock, r.value)
    ensures r.None? ==> forall t :: !IsLatest(a, start, end, clock, t)
  {
    if exists t :: IsLatest(a, start, end, clock, t) then
      var t :| IsLatest(a, start, end, clock, t);
      Some(t)
    else None
  }

  /** What a check reports for an alarm: only the latest occurrence, and not one it already reported. */
  ghost function Reported(a: Alarm, start: int, end: int, clock: Clock): Option<int> {
    var latest := Latest(a, start, end, clock);
    if a.enabled && latest != a.lastTriggered then latest else None
  }

  ghost function Marked(a: Alarm, start: int, end: int, clock: Clock): Alarm {
    var reported := Reported(a, start, end, clock);
    if reported.Some? then a.(lastTriggered := reported) else a
  }

  ghost function MarkedAll(alarms: seq<Alarm>, start: int, end: int, clock: Clock): seq<Alarm> {
    seq(|alarms|, i requires 0 <= i < |alarms| => Marked(alarms[i], start, end, clock))
  }

  ghost function DueAmong(alarms: seq<Alarm>, start: int, end: int, clock: Clock): seq<Due> {
    if alarms == [] then []
    else
      var last := alarms[|alarms| - 1];
      var reported := Reported(last, start, end, clock);
      DueAmong(alarms[..|alarms| - 1], start, end, clock)
      + (if reported.Some? then [Due(last.id, reported.value)] else [])
  }

  class AlarmStore {
    const clock: Clock
    var alarms: seq<Alarm>
    var lastChecked: Option<int>

    constructor (alarms: seq<Alarm>, lastChecked: Option<int>, clock: Clock)
      ensures Now() == Store(alarms, lastChecked) && this.clock == clock
    {
      this.alarms, this.lastChecked, this.clock := alarms, lastChecked, clock;
    }

    function Now(): Store
      reads this
    {
      Store(alarms, lastChecked)
    }

    /** The occurrence a window makes due for one alarm. */
    method CheckAlarm(a: Alarm, start: int, current: int) returns (reported: Option<int>)
      requires ValidTime(a)
      ensures reported == Reported(a, start, current, clock)
    {
      if !a.enabled {
        return None;
      }
      var occurrences := DueOccurrences(a, start, current, clock);
      if occurrences == [] {
        assert forall t :: !IsLatest(a, start, current, clock, t);
        return None;
      }
      var scheduledAt := occurrences[|occurrences| - 1];
      assert scheduledAt in occurrences;
      assert IsLatest(a, start, current, clock, scheduledAt) by {
        forall u | start <= u <= current && IsOccurrence(a, u, clock) ensures u <= scheduledAt {
          assert u in occurrences;
        }
      }
      reported := if a.lastTriggered == Some(scheduledAt) then None else Some(scheduledAt);
    }

    /** `_check_due_alarms_locked`; none for an invalid catch-up. */
    method CheckDueAlarms(current: int, mark: bool, catchUp: int) returns (due: Option<seq<Due>>)
      requires forall a | a in alarms :: ValidTime(a)
      modifies this
      ensures due.Some? <==> 0 <= catchUp <= MAX_CATCH_UP_MINUTES
      ensures due.Some? ==> due.value == DueAmong(old(alarms), WindowStart(old(lastChecked), current, catchUp), current, clock)
      ensures Now() == if due.Some? && mark then Step(old(Now()), Check(current, catchUp), clock) else old(Now())
    {
      if catchUp < 0 || catchUp > MAX_CATCH_UP_MINUTES {
        return None;
      }
      var start := WindowStart(lastChecked, current, catchUp);
      var dues: seq<Due> := [];
      var marked: seq<Alarm> := [];
      var loaded := alarms;
      for i := 0 to |loaded|
        invariant dues == DueAmong(loaded[..i], start, current, clock)
        invariant marked == MarkedAll(loaded[..i], start, current, clock)
        invariant Now() == old(Now())
      {
        var alarm := loaded[i];
        var reported := CheckAlarm(alarm, start, current);
        assert loaded[..i + 1][..i] == loaded[..i];
        if reported.Some? {
          dues := dues + [Due(alarm.id, reported.value)];
          marked := marked + [alarm.(lastTriggered := reported)];
        } else {
          marked := marked + [alarm];
        }
      }
      assert loaded[..|loaded|] == loaded;
      if mark {
        alarms, lastChecked := marked, Some(current);
        assert Now() == Step(old(Now()), Check(current, catchUp), clock);
      }
      due := Some(dues);
    }
  }

  /** The store after a marked check. */
  ghost function Step(s: Store, c: Check, clock: Clock): Store {
    Store(MarkedAll(s.alarms, WindowStart(s.lastChecked, c.now, c.catchUp), c.now, clock), Some(c.now))
  }

  /* ---------- Runs of marked checks ---------- */

  /** The times reported for the `i`-th alarm over a run. */
  ghost function Reports(s: Store, checks: seq<Check>, i: nat, clock: Clock): seq<int>
    requires i < |s.alarms|
    decreases |checks|
  {
    if checks == [] then []
    else
      var reported := Reported(s.alarms[i], WindowStart(s.lastChecked, checks[0].now, checks[0].catchUp), checks[0].now, clock);
      (if reported.Some? then [reported.value] else []) + Reports(Step(s, checks[0], clock), checks[1..], i, clock)
  }

  /** The clock never goes back. */
  ghost predicate NonDecreasing(checks: seq<Check>) {
    forall k, l | 0 <= k < l < |checks| :: checks[k].now <= checks[l].now
  }

  lemma {:induction false} LaterReports(s: Store, checks: seq<Check>, i: nat, clock: Clock)
    requires i < |s.alarms| && NonDecreasing(checks)
    requires s.lastChecked.Some? && (checks != [] ==> s.lastChecked.value <= checks[0].now)
    ensures Increasing(Reports(s, checks, i, clock))
    ensures forall t | t in Reports(s, checks, i, clock) ::
              && s.lastChecked.value <= t
              && (s.alarms[i].lastTriggered.Some? && s.alarms[i].lastTriggered.value <= s.lastChecked.value
                  ==> s.alarms[i].lastTriggered.value < t)
    decreases |checks|
  {
    if checks == [] {
    } else {
      LaterReports(Step(s, checks[0], clock), checks[1..], i, clock);
      Prepended(s, checks, i, clock);
    }
  }

  /** The later reports come after the first check's own. */
  lemma Prepended(s: Store, checks: seq<Check>, i: nat, clock: Clock)
    requires i < |s.alarms| && checks != []
    requires var rest := Reports(Step(s, checks[0], clock), checks[1..], i, clock);
             var a := Step(s, checks[0], clock).alarms[i];
             && Increasing(rest)
             && forall t | t in rest ::
                  checks[0].now <= t && (a.lastTriggered.Some? && a.lastTriggered.value <= checks[0].now ==> a.lastTriggered.value < t)
    ensures Increasing(Reports(s, checks, i, clock))
  {
    var rest := Reports(Step(s, checks[0], clock), checks[1..], i, clock);
    assert forall k | 0 <= k < |rest| :: rest[k] in rest;
  }

  /** Over any run of marked checks with a clock that never goes back, the times reported for
      an alarm strictly increase: none is reported twice, whatever the catch-ups were and
      whatever the store held before. */
  lemma NoOccurrenceIsReportedTwice(s: Store, checks: seq<Check>, i: nat, clock: Clock)
    requires i < |s.alarms| && NonDecreasing(checks)
    ensures Increasing(Reports(s, checks, i, clock))
  {
    if checks != [] {
      LaterReports(Step(s, checks[0], clock), checks[1..], i, clock);
      Prepended(s, checks, i, clock);
    }
  }

  /* ---------- Nothing is missed ---------- */

  /** Each check comes at most its catch-up after the one before, and that is under a day. */
  ghost predicate Prompt(lastChecked: int, checks: seq<Check>)
    decreases |checks|
  {
    checks != [] ==>
      && checks[0].now - checks[0].catchUp <= lastChecked <= checks[0].now
      && checks[0].catchUp < MINUTES_PER_DAY
      && Prompt(checks[0].now, checks[1..])
  }

  ghost function End(lastChecked: int, checks: seq<Check>): int {
    if checks == [] then lastChecked else checks[|checks| - 1].now
  }

  lemma {:induction false} EndIsLater(lastChecked: int, checks: seq<Check>)
    requires Prompt(lastChecked, checks)
    ensures lastChecked <= End(lastChecked, checks)
    decreases |checks|
  {
    if checks == [] {
    } else {
      EndIsLater(checks[0].now, checks[1..]);
    }
  }

  /** The recorded trigger is the very next occurrence: it looks reported before its time. */
  ghost predicate Anticipated(a: Alarm, lastChecked: int, end: int, clock: Clock) {
    && a.lastTriggered.Some? && lastChecked < a.lastTriggered.value <= end && IsOccurrence(a, a.lastTriggered.value, clock)
    && forall t | lastChecked < t < a.lastTriggered.value :: !IsOccurrence(a, t, clock)
  }

  /** Two occurrences are at least a day apart. */
  lemma ADayApart(a: Alarm, t: int, u: int, clock: Clock)
    requires IsOccurrence(a, t, clock) && IsOccurrence(a, u, clock) && t < u
    ensures u - t >= MINUTES_PER_DAY
  {
  }

  /** An occurrence at the last check was reported by it. */
  ghost predicate Settled(a: Alarm, lastChecked: int, clock: Clock) {
    IsOccurrence(a, lastChecked, clock) ==> a.lastTriggered == Some(lastChecked)
  }

  /** A prompt check reports its window's one new occurrence unless that looks reported. */
  lemma PromptCheck(a: Alarm, last: int, c: Check, clock: Clock)
    requires ValidTime(a) && a.enabled && Settled(a, last, clock)
    requires c.now - c.catchUp <= last <= c.now && c.catchUp < MINUTES_PER_DAY
    ensures var reported := Reported(a, WindowStart(Some(last), c.now, c.catchUp), c.now, clock);
            && (forall t :: reported == Some(t) <==> last < t <= c.now && IsOccurrence(a, t, clock) && a.lastTriggered != Some(t))
            && Settled(Marked(a, WindowStart(Some(last), c.now, c.catchUp), c.now, clock), c.now, clock)
  {
    var start := WindowStart(Some(last), c.now, c.catchUp);
    assert start == last;
    var latest := Latest(a, start, c.now, clock);
    forall t, u | start <= t < u <= c.now && IsOccurrence(a, t, clock) ensures !IsOccurrence(a, u, clock) {
      if IsOccurrence(a, u, clock) {
        ADayApart(a, t, u, clock);
      }
    }
    forall t | start <= t <= c.now && IsOccurrence(a, t, clock) ensures latest == Some(t) {
      assert IsLatest(a, start, c.now, clock, t);
    }
  }

  /** What the rest of the run must report is what the whole run must, less the first window. */
  lemma FirstCheckCovers(a: Alarm, b: Alarm, last: int, c: Check, end: int, clock: Clock)
    requires ValidTime(a) && a.enabled && Settled(a, last, clock) && c.now <= end
    requires c.now - c.catchUp <= last <= c.now && c.catchUp < MINUTES_PER_DAY
    requires b == Marked(a, WindowStart(Some(last), c.now, c.catchUp), c.now, clock)
    ensures var reported := Reported(a, WindowStart(Some(last), c.now, c.catchUp), c.now, clock);
            && (reported.Some? ==> !Anticipated(a, last, end, clock) && !Anticipated(b, c.now, end, clock))
            && (reported.None? && (exists t :: last < t <= c.now && IsOccurrence(a, t, clock)) ==> Anticipated(a, last, end, clock))
            && (reported.None? && (forall t | last < t <= c.now :: !IsOccurrence(a, t, clock))
                ==> (Anticipated(a, last, end, clock) <==> Anticipated(b, c.now, end, clock)))
  {
    PromptCheck(a, last, c, clock);
    forall t, u | last < t < u <= c.now && IsOccurrence(a, t, clock) ensures !IsOccurrence(a, u, clock) {
      if IsOccurrence(a, u, clock) {
        ADayApart(a, t, u, clock);
      }
    }
    forall t ensures IsOccurrence(b, t, clock) == IsOccurrence(a, t, clock) {}
  }

  /** Under prompt checks an enabled alarm's occurrences since the last check are reported,
      each exactly once, precisely when the next one does not look reported already. */
  lemma {:induction false} EveryOccurrenceIsReportedOnce(s: Store, checks: seq<Check>, i: nat, clock: Clock)
    requires i < |s.alarms| && ValidTime(s.alarms[i]) && s.alarms[i].enabled && s.lastChecked.Some?
    requires Prompt(s.lastChecked.value, checks) && Settled(s.alarms[i], s.lastChecked.value, clock)
    ensures var reports := Reports(s, checks, i, clock);
            var last, end := s.lastChecked.value, End(s.lastChecked.value, checks);
            && (forall t | t in reports :: last < t <= end && IsOccurrence(s.alarms[i], t, clock))
            && ((forall t | last < t <= end && IsOccurrence(s.alarms[i], t, clock) :: t in reports)
                <==> !Anticipated(s.alarms[i], last, end, clock))
    decreases |checks|
  {
    if checks == [] {
    } else {
      var a, c, last := s.alarms[i], checks[0], s.lastChecked.value;
      var next := Step(s, c, clock);
      EndIsLater(c.now, checks[1..]);
      PromptCheck(a, last, c, clock);
      EveryOccurrenceIsReportedOnce(next, checks[1..], i, clock);
      assert End(c.now, checks[1..]) == End(last, checks);
      forall t ensures IsOccurrence(next.alarms[i], t, clock) == IsOccurrence(a, t, clock) {}
      FirstCheckCovers(a, next.alarms[i], last, c, End(last, checks), clock);
    }
  }

  /** So with a recorded trigger in the past, or none, nothing is missed. */
  lemma PastTriggersAreHarmless(s: Store, checks: seq<Check>, i: nat, clock: Clock, t: int)
    requires i < |s.alarms| && ValidTime(s.alarms[i]) && s.alarms[i].enabled && s.lastChecked.Some?
    requires Prompt(s.lastChecked.value, checks) && Settled(s.alarms[i], s.lastChecked.value, clock)
    requires s.alarms[i].lastTriggered.Some? ==> s.alarms[i].lastTriggered.value <= s.lastChecked.value
    ensures t in Reports(s, checks, i, clock) <==>
              s.lastChecked.value < t <= End(s.lastChecked.value, checks) && IsOccurrence(s.alarms[i], t, clock)
  {
    EveryOccurrenceIsReportedOnce(s, checks, i, clock);
  }

  /** A marked check leaves the alarm settled, so the theorems apply from any first check on. */
  lemma FirstCheckSettles(s: Store, c: Check, i: nat, clock: Clock)
    requires i < |s.alarms| && ValidTime(s.alarms[i]) && s.alarms[i].enabled
    ensures Settled(Step(s, c, clock).alarms[i], c.now, clock)
  {
    var a, start := s.alarms[i], WindowStart(s.lastChecked, c.now, c.catchUp);
    if IsOccurrence(a, c.now, clock) {
      assert IsLatest(a, start, c.now, clock, c.now);
    }
  }

  /** An occurrence in the window of a check is never reported, by it or later, exactly if a
      later one lies in the same window, which takes a catch-up of a day or more, or if it looks
      reported already. */
  lemma LongWindowsDropOccurrences(s: Store, c: Check, rest: seq<Check>, i: nat, clock: Clock, t: int)
    requires i < |s.alarms| && s.alarms[i].enabled && NonDecreasing([c] + rest)
    requires WindowStart(s.lastChecked, c.now, c.catchUp) <= t <= c.now && IsOccurrence(s.alarms[i], t, clock)
    ensures t !in Reports(s, [c] + rest, i, clock) <==>
              (exists u :: t < u <= c.now && IsOccurrence(s.alarms[i], u, clock)) || s.alarms[i].lastTriggered == Some(t)
    ensures (exists u :: t < u <= c.now && IsOccurrence(s.alarms[i], u, clock)) ==> c.catchUp >= MINUTES_PER_DAY
  {
    var a, checks, start := s.alarms[i], [c] + rest, WindowStart(s.lastChecked, c.now, c.catchUp);
    assert checks[1..] == rest && checks[0] == c;
    LaterReports(Step(s, c, clock), rest, i, clock);
    if u :| t < u <= c.now && IsOccurrence(a, u, clock) {
      ADayApart(a, t, u, clock);
      assert !IsLatest(a, start, c.now, clock, t);
    } else {
      assert IsLatest(a, start, c.now, clock, t);
    }
  }

  /* ---------- Two alarms that stay silent ---------- */

  /** At seven in the morning, every day. */
  function Daily(lastTriggered: Option<int>): Alarm {
    Alarm("daily", 7, 0, {0, 1, 2, 3, 4, 5, 6}, true, lastTriggered)
  }

  lemma DailyOccurs(lastTriggered: Option<int>, t: int, clock: Clock)
    requires forall u :: clock(u)
    ensures IsOccurrence(Daily(lastTriggered), t, clock) <==> t % MINUTES_PER_DAY == 420
  {
  }

  /** A check after two days, with the longest catch-up: the first morning is never reported. */
  lemma DroppedExample(rest: seq<Check>, clock: Clock)
    requires NonDecreasing([Check(2880, MAX_CATCH_UP_MINUTES)] + rest) && forall u :: clock(u)
    ensures IsOccurrence(Daily(None), 420, clock)
    ensures 420 !in Reports(Store([Daily(None)], Some(0)), [Check(2880, MAX_CATCH_UP_MINUTES)] + rest, 0, clock)
  {
    DailyOccurs(None, 420, clock);
    DailyOccurs(None, 1860, clock);
    LongWindowsDropOccurrences(Store([Daily(None)], Some(0)), Check(2880, MAX_CATCH_UP_MINUTES), rest, 0, clock, 420);
  }

  /** A recorded trigger of the coming morning, as a clock set back leaves it: prompt checks
      miss that morning. */
  lemma AnticipatedExample(clock: Clock)
    requires forall u :: clock(u)
    ensures var s, checks := Store([Daily(Some(420))], Some(0)), [Check(1000, 1000)];
            && Prompt(0, checks) && Settled(s.alarms[0], 0, clock)
            && IsOccurrence(s.alarms[0], 420, clock) && 420 !in Reports(s, checks, 0, clock)
  {
    var s, checks := Store([Daily(Some(420))], Some(0)), [Check(1000, 1000)];
    DailyOccurs(Some(420), 420, clock);
    DailyOccurs(Some(420), 0, clock);
    assert checks[1..] == [] && Prompt(1000, []);
    LongWindowsDropOccurrences(s, Check(1000, 1000), [], 0, clock, 420);
    assert [Check(1000, 1000)] + [] == checks;
  }
}
