/** Giving every alarm an id of its own. */
module AlarmIds {
  import opened Alarms
  import opened Numerals

  const MAX_ALARM_ID_CHARS := 120
  const MAX_ALARM_COUNT := 256

  /* ---------- Numbered candidates ---------- */

  function Suffix(index: nat): string {
    "-" + Decimal(index)
  }

  /** The id with a numbered suffix, cut so that the whole fits. */
  function Candidate(base: string, index: nat): string {
    var room := MAX_ALARM_ID_CHARS - |Suffix(index)|;
    (if room < 0 then "" else if |base| <= room then base else base[..room]) + Suffix(index)
  }

  lemma {:induction false} DecimalHasNoDash(n: nat)
    ensures '-' !in Decimal(n)
  {
    if n < 10 {
    } else {
      DecimalHasNoDash(n / 10);
    }
  }

  /** Texts ending in a dash and different dash-free tails differ. */
  lemma TailsDiffer(p: string, s: string, q: string, t: string)
    requires s != t && '-' !in s && '-' !in t
    ensures p + "-" + s != q + "-" + t
  {
    var a, b := p + "-" + s, q + "-" + t;
    assert a[|p|] == '-' && a[|p| + 1..] == s;
    assert b[|q|] == '-' && b[|q| + 1..] == t;
    assert |p| < |q| <= |p| + |s| ==> a[|q|] == s[|q| - |p| - 1];
    assert |q| < |p| <= |q| + |t| ==> b[|p|] == t[|p| - |q| - 1];
  }

  /** Candidates with different numbers differ, however much of the id was cut off. */
  lemma CandidatesDiffer(base: string, m: nat, n: nat)
    requires m != n
    ensures Candidate(base, m) != Candidate(base, n)
  {
    DecimalHasNoDash(m);
    DecimalHasNoDash(n);
    DecimalsDiffer(m, n);
    var p := Candidate(base, m)[..|Candidate(base, m)| - |Suffix(m)|];
    var q := Candidate(base, n)[..|Candidate(base, n)| - |Suffix(n)|];
    assert Candidate(base, m) == p + "-" + Decimal(m);
    assert Candidate(base, n) == q + "-" + Decimal(n);
    TailsDiffer(p, Decimal(m), q, Decimal(n));
  }

  /* ---------- Deduplication ---------- */

  /** The id used for an alarm without one. */
  function TwoDigits(n: nat): string {
    if n < 10 then "0" + Decimal(n) else Decimal(n)
  }

  function BaseId(a: Alarm): string {
    if a.id == "" then "alarm-" + TwoDigits(a.hour) + TwoDigits(a.minute) else a.id
  }

  /** Distinct variants that are all used need as many used ids. */
  lemma {:induction false} VariantsRunOut(variant: nat -> string, used: set<string>, n: nat)
    requires forall k, l | 2 <= k < l < n :: variant(k) != variant(l)
    requires forall k | 2 <= k < n :: variant(k) in used
    ensures n <= |used| + 2
  {
    if n > 2 {
      VariantsRunOut(variant, used - {variant(n - 1)}, n - 1);
    }
  }

  /** The numbered variants tried so far are all used, so there are not too many of them. */
  lemma CandidatesRunOut(base: string, used: set<string>, n: nat)
    requires forall k | 2 <= k < n :: Candidate(base, k) in used
    ensures n <= |used| + 2
  {
    forall k, l | 2 <= k < l < n ensures Candidate(base, k) != Candidate(base, l) {
      CandidatesDiffer(base, k, l);
    }
    VariantsRunOut((k: nat) => Candidate(base, k), used, n);
  }

  /** An earlier output has this id. */
  ghost predicate Taken(earlier: seq<Alarm>, id: string) {
    exists k :: 0 <= k < |earlier| && earlier[k].id == id
  }

  /** The id an alarm gets: its own, or the first of its numbered variants that is free. */
  ghost predicate IsFree(base: string, earlier: seq<Alarm>, id: string) {
    && !Taken(earlier, id)
    && (id == base
        || (Taken(earlier, base)
            && exists k :: k >= 2 && id == Candidate(base, k) && forall l | 2 <= l < k :: Taken(earlier, Candidate(base, l))))
  }

  /** The search for a free id in `_dedupe_alarm_ids`; it ends because the numbered variants
      are pairwise distinct and only finitely many ids are used. */
  method FreeId(base: string, used: set<string>, ghost earlier: seq<Alarm>) returns (candidate: string)
    requires 0 < |base| <= MAX_ALARM_ID_CHARS && |used| <= MAX_ALARM_COUNT
    requires forall id :: id in used <==> Taken(earlier, id)
    ensures IsFree(base, earlier, candidate) && 0 < |candidate| <= MAX_ALARM_ID_CHARS
  {
    candidate := base;
    var index := 2;
    while candidate in used
      invariant 2 <= index && candidate == (if index == 2 then base else Candidate(base, index - 1))
      invariant index > 2 ==> base in used
      invariant forall k | 2 <= k < index - 1 :: Candidate(base, k) in used
      invariant 0 < |candidate| <= MAX_ALARM_ID_CHARS
      decreases MAX_ALARM_COUNT + 3 - index
    {
      CandidatesRunOut(base, used, index);
      DecimalLength(index);
      candidate := Candidate(base, index);
      index := index + 1;
    }
  }

  /** The outputs so far: one for each alarm, with an id of its own. */
  ghost predicate Deduped(alarms: seq<Alarm>, output: seq<Alarm>) {
    && |output| <= |alarms|
    && (forall i | 0 <= i < |output| :: output[i].(id := alarms[i].id) == alarms[i] && 0 < |output[i].id| <= MAX_ALARM_ID_CHARS)
    && (forall i | 0 <= i < |output| :: IsFree(BaseId(alarms[i]), output[..i], output[i].id))
  }

  lemma DedupedNext(alarms: seq<Alarm>, output: seq<Alarm>, id: string)
    requires Deduped(alarms, output) && |output| < |alarms| && 0 < |id| <= MAX_ALARM_ID_CHARS
    requires IsFree(BaseId(alarms[|output|]), output, id)
    ensures Deduped(alarms, output + [alarms[|output|].(id := id)])
  {
    var next := output + [alarms[|output|].(id := id)];
    forall i | 0 <= i < |next| ensures IsFree(BaseId(alarms[i]), next[..i], next[i].id) {
      assert i < |output| ==> next[..i] == output[..i];
      assert i == |output| ==> next[..i] == output;
    }
  }

  /** `_dedupe_alarm_ids`: each alarm, in order, keeps its id unless an earlier output took it. */
  method DedupeAlarmIds(alarms: seq<Alarm>) returns (output: seq<Alarm>)
    requires |alarms| <= MAX_ALARM_COUNT && forall i | 0 <= i < |alarms| :: Sanitized(alarms[i])
    ensures |output| == |alarms| && Deduped(alarms, output)
  {
    var usedIds: set<string> := {};
    output := [];
    for n := 0 to |alarms|
      invariant |output| == n && |usedIds| <= n && Deduped(alarms, output)
      invariant forall id :: id in usedIds <==> Taken(output, id)
    {
      BaseFits(alarms[n]);
      var candidate := FreeId(BaseId(alarms[n]), usedIds, output);
      DedupedNext(alarms, output, candidate);
      ghost var before := output;
      output := output + [alarms[n].(id := candidate)];
      usedIds := usedIds + {candidate};
      assert output[n].id == candidate;
      assert forall k | 0 <= k < n :: output[k] == before[k];
      forall id ensures id in usedIds <==> Taken(output, id) {
        assert Taken(before, id) ==> Taken(output, id);
      }
    }
  }

  /** The ids of the output are pairwise distinct. */
  lemma DedupedAreDistinct(alarms: seq<Alarm>, output: seq<Alarm>, i: nat, j: nat)
    requires Deduped(alarms, output) && i < j < |output|
    ensures output[i].id != output[j].id
  {
    assert output[..j][i] == output[i];
    assert !Taken(output[..j], output[j].id);
  }

  /** What sanitizing leaves of an id and a time. */
  predicate Sanitized(a: Alarm) {
    |a.id| <= MAX_ALARM_ID_CHARS && a.hour < 24 && a.minute < 60
  }

  lemma BaseFits(a: Alarm)
    requires Sanitized(a)
    ensures 0 < |BaseId(a)| <= MAX_ALARM_ID_CHARS
  {
    DecimalLength(a.hour);
    DecimalLength(a.minute);
  }

  /** Deduplicating a list of distinct ids changes nothing; in particular it changes no output
      of its own. */
  lemma DistinctIdsAreKept(alarms: seq<Alarm>, output: seq<Alarm>)
    requires |output| == |alarms| && Deduped(alarms, output)
    requires forall i | 0 <= i < |alarms| :: alarms[i].id != ""
    requires forall i, j | 0 <= i < j < |alarms| :: alarms[i].id != alarms[j].id
    ensures output == alarms
  {
    for n := 0 to |alarms|
      invariant forall k | 0 <= k < n :: output[k] == alarms[k]
    {
      KeptUnlessTaken(alarms, output, n);
    }
  }

  /** An alarm keeps its id exactly when no earlier output has it. */
  lemma KeptUnlessTaken(alarms: seq<Alarm>, output: seq<Alarm>, n: nat)
    requires Deduped(alarms, output) && n < |output| && alarms[n].id != ""
    ensures output[n].id == alarms[n].id <==> forall k | 0 <= k < n :: output[k].id != alarms[n].id
  {
    assert IsFree(BaseId(alarms[n]), output[..n], output[n].id);
    assert forall k | 0 <= k < n :: output[..n][k] == output[k];
  }

  /* ---------- A fresh id ---------- */

  /** `next_alarm_id`: the time's id, or its first free numbered variant; nothing is cut off. */
  method NextAlarmId(existing: set<string>, hour: nat, minute: nat) returns (id: string)
    ensures id !in existing
    ensures var base := "alarm-" + TwoDigits(hour) + TwoDigits(minute);
            || id == base
            || (base in existing && exists k :: k >= 2 && id == base + Suffix(k) && forall l | 2 <= l < k :: base + Suffix(l) in existing)
  {
    var base := "alarm-" + TwoDigits(hour) + TwoDigits(minute);
    if base !in existing {
      return base;
    }
    var index := 2;
    while base + Suffix(index) in existing
      invariant 2 <= index && forall l | 2 <= l < index :: base + Suffix(l) in existing
      decreases |existing| + 2 - index
    {
      index := index + 1;
      forall k, l | 2 <= k < l < index ensures base + Suffix(k) != base + Suffix(l) {
        SuffixesDiffer(base, k, l);
      }
      VariantsRunOut((k: nat) => base + Suffix(k), existing, index);
    }
    id := base + Suffix(index);
  }

  lemma SuffixesDiffer(base: string, m: nat, n: nat)
    requires m != n
    ensures base + Suffix(m) != base + Suffix(n)
  {
    DecimalHasNoDash(m);
    DecimalHasNoDash(n);
    DecimalsDiffer(m, n);
    TailsDiffer(base, Decimal(m), base, Decimal(n));
    assert base + Suffix(m) == base + "-" + Decimal(m) && base + Suffix(n) == base + "-" + Decimal(n);
  }
}
