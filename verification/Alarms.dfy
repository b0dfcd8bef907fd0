/** When an alarm is due, and what a polling check reports.

    Times are local minutes counted from some midnight; day 0 is a Monday.  A `Clock`
    says which local minutes exist: a clock change can leave a gap. */
module Alarms {
  import opened Wrappers

  const MINUTES_PER_DAY := 1440
  const MAX_CATCH_UP_MINUTES := 14_400

  type Clock = int -> bool

  datatype Alarm = Alarm(id: string, hour: nat, minute: nat, days: set<nat>, enabled: bool, lastTriggered: Option<int>)

  function DayOf(t: int): int {
    t / MINUTES_PER_DAY
  }

  function Weekday(day: int): nat {
    day % 7
  }

  predicate ValidTime(a: Alarm) {
    a.hour < 24 && a.minute < 60
  }

  /* ---------- Occurrences ---------- */

  /** The alarm's time on a day, if the day is one of its days and the minute exists. */
  function AlarmOccurrence(a: Alarm, day: int, clock: Clock): Option<int> {
    var candidate := day * MINUTES_PER_DAY + a.hour * 60 + a.minute;
    if Weekday(day) in a.days && clock(candidate) then Some(candidate) else None
  }

  /** `t` is a time at which the alarm goes off. */
  predicate IsOccurrence(a: Alarm, t: int, clock: Clock) {
    && t % MINUTES_PER_DAY == a.hour * 60 + a.minute
    && Weekday(DayOf(t)) in a.days && clock(t)
  }

  lemma OccurrenceOnDay(a: Alarm, day: int, clock: Clock)
    requires ValidTime(a)
    ensures forall t :: DayOf(t) == day && IsOccurrence(a, t, clock) <==> AlarmOccurrence(a, day, clock) == Some(t)
  {
    var candidate := day * MINUTES_PER_DAY + a.hour * 60 + a.minute;
    assert DayOf(candidate) == day && candidate % MINUTES_PER_DAY == a.hour * 60 + a.minute;
    forall t ensures DayOf(t) == day && IsOccurrence(a, t, clock) <==> AlarmOccurrence(a, day, clock) == Some(t) {
      if DayOf(t) == day && t % MINUTES_PER_DAY == a.hour * 60 + a.minute {
        assert t == candidate;
      }
    }
  }

  ghost predicate Increasing(s: seq<int>) {
    forall i, j | 0 <= i < j < |s| :: s[i] < s[j]
  }

  /** All occurrences of a closed window, in order. */
  ghost predicate AreDue(a: Alarm, start: int, end: int, clock: Clock, occurrences: seq<int>) {
    Increasing(occurrences) && forall t :: t in occurrences <==> start <= t <= end && IsOccurrence(a, t, clock)
  }

  /** The least occurrence of all future time; none only if the next eight days have none. */
  ghost predicate IsNext(a: Alarm, now: int, clock: Clock, next: Option<int>) {
    match next
    case Some(t) =>
      now <= t && DayOf(t) < DayOf(now) + 8 && IsOccurrence(a, t, clock) && forall u | now <= u && IsOccurrence(a, u, clock) :: t <= u
    case None => forall u | now <= u && IsOccurrence(a, u, clock) :: DayOf(u) >= DayOf(now) + 8
  }

  /** `due_occurrences`: exactly the occurrences of the closed window, in order. */
  method DueOccurrences(a: Alarm, start: int, end: int, clock: Clock) returns (occurrences: seq<int>)
    requires ValidTime(a)
    ensures AreDue(a, start, end, clock, occurrences)
  {
    occurrences := [];
    var day := DayOf(start);
    while day <= DayOf(end)
      invariant DayOf(start) <= day
      invariant Increasing(occurrences)
      invariant forall t :: t in occurrences <==> start <= t <= end && DayOf(t) < day && IsOccurrence(a, t, clock)
      decreases DayOf(end) - day
    {
      OccurrenceOnDay(a, day, clock);
      var candidate := AlarmOccurrence(a, day, clock);
      if candidate.Some? && start <= candidate.value <= end {
        assert forall i | 0 <= i < |occurrences| :: occurrences[i] in occurrences && DayOf(occurrences[i]) < day;
        occurrences := occurrences + [candidate.value];
      }
      day := day + 1;
    }
    assert forall t :: start <= t <= end ==> DayOf(t) < day;
  }

  /** The latest occurrence of a window. */
  ghost predicate IsLatest(a: Alarm, start: int, end: int, clock: Clock, t: int) {
    && start <= t <= end && IsOccurrence(a, t, clock)
    && forall u | start <= u <= end && IsOccurrence(a, u, clock) :: u <= t
  }

  /* ---------- The next occurrence ---------- */

  /** `next_occurrence`: the least occurrence from now on, searched for over eight days. */
  method NextOccurrence(a: Alarm, now: int, clock: Clock) returns (r: Option<int>)
    requires ValidTime(a)
    ensures IsNext(a, now, clock, r)
  {
    for offset := 0 to 8
      invariant forall t | now <= t && IsOccurrence(a, t, clock) :: DayOf(t) >= DayOf(now) + offset
    {
      OccurrenceOnDay(a, DayOf(now) + offset, clock);
      var candidate := AlarmOccurrence(a, DayOf(now) + offset, clock);
      if candidate.Some? && candidate.value >= now {
        return candidate;
      }
    }
    r := None;
  }

  /** Eight days are enough: with some day set and no gap at the alarm's time in the span,
      an occurrence lies in it. */
  lemma EightDaysSuffice(a: Alarm, now: int, clock: Clock)
    requires ValidTime(a) && (exists d :: d in a.days && d < 7)
    requires forall t | DayOf(now) <= DayOf(t) < DayOf(now) + 8 :: clock(t)
    ensures exists t :: now <= t && DayOf(t) < DayOf(now) + 8 && IsOccurrence(a, t, clock)
  {
    var d :| d in a.days && d < 7;
    var offset := (d - Weekday(DayOf(now)) + 6) % 7 + 1;
    var day := DayOf(now) + offset;
    assert Weekday(day) == d;
    OccurrenceOnDay(a, day, clock);
    var t := day * MINUTES_PER_DAY + a.hour * 60 + a.minute;
    assert DayOf(t) == day;
    assert AlarmOccurrence(a, day, clock) == Some(t);
  }

  /** The next occurrence is the head of the due occurrences of the same span. */
  lemma NextIsFirstDue(a: Alarm, now: int, clock: Clock, next: Option<int>, due: seq<int>)
    requires IsNext(a, now, clock, next)
    requires AreDue(a, now, (DayOf(now) + 8) * MINUTES_PER_DAY - 1, clock, due)
    ensures next == if due == [] then None else Some(due[0])
  {
    if due != [] {
      assert due[0] in due;
    }
    if next.Some? {
      assert next.value in due;
    }
  }
}
