/** Which log files the total size limit removes. */
module LogRetention {
  import opened Sorting

  const MAX_TOTAL_LOG_BYTES := 5_000_000

  datatype LogFile = LogFile(name: string, mtime: int, size: nat)

  /** Older first, and files of one age by name. */
  predicate NotYounger(a: LogFile, b: LogFile) {
    a.mtime < b.mtime || (a.mtime == b.mtime && Leq(a.name, b.name))
  }

  const BY_AGE: (LogFile, LogFile) -> bool := (a, b) => NotYounger(a, b)

  lemma ByAgeIsTotal()
    ensures TotalOrder(BY_AGE)
  {
    forall a: LogFile, b: LogFile ensures BY_AGE(a, b) || BY_AGE(b, a) {
      LeqTotal(a.name, b.name);
    }
    forall a: LogFile, b: LogFile, c: LogFile | BY_AGE(a, b) && BY_AGE(b, c) ensures BY_AGE(a, c) {
      if a.mtime == c.mtime {
        LeqTransitive(a.name, b.name, c.name);
      }
    }
  }

  function TotalSize(files: seq<LogFile>): nat {
    if files == [] then 0 else TotalSize(files[..|files| - 1]) + files[|files| - 1].size
  }

  function NotActive(files: seq<LogFile>, active: string): seq<LogFile> {
    if files == [] then []
    else NotActive(files[..|files| - 1], active)
         + if files[|files| - 1].name != active then [files[|files| - 1]] else []
  }

  lemma {:induction false} NotActiveMembers(files: seq<LogFile>, active: string)
    ensures forall f :: f in NotActive(files, active) <==> f in files && f.name != active
    ensures forall f :: multiset(NotActive(files, active))[f] <= multiset(files)[f]
  {
    if files != [] {
      NotActiveMembers(files[..|files| - 1], active);
      assert files == files[..|files| - 1] + [files[|files| - 1]];
    }
  }

  ghost predicate DistinctNames(files: seq<LogFile>) {
    forall i, j | 0 <= i < j < |files| :: files[i].name != files[j].name
  }

  /** The removed files are a shortest run of the oldest files, the active one aside, that meets
      the limit, or all of them when no run does. */
  ghost predicate Prunes(files: seq<LogFile>, active: string, doomed: seq<LogFile>) {
    && DistinctNames(doomed)
    && (forall f | f in doomed :: f in files && f.name != active)
    && (forall d, f | d in doomed && f in files && f.name != active && NotYounger(f, d) :: f in doomed)
    && (TotalSize(files) - TotalSize(doomed) <= MAX_TOTAL_LOG_BYTES
        || forall f | f in files && f.name != active :: f in doomed)
    && (doomed != [] ==> TotalSize(files) - TotalSize(doomed[..|doomed| - 1]) > MAX_TOTAL_LOG_BYTES
                         && forall f | f in doomed :: NotYounger(f, doomed[|doomed| - 1]))
  }

  /** `_enforce_total_size_limit`, as far as the files it removes. */
  method EnforceTotalSizeLimit(files: seq<LogFile>, active: string) returns (doomed: seq<LogFile>)
    requires DistinctNames(files)
    ensures Prunes(files, active, doomed)
  {
    var total := 0;
    for i := 0 to |files|
      invariant total == TotalSize(files[..i])
    {
      assert files[..i + 1][..i] == files[..i];
      total := total + files[i].size;
    }
    assert files[..|files|] == files;
    if total <= MAX_TOTAL_LOG_BYTES {
      return [];
    }
    var candidates := Sort(NotActive(files, active), BY_AGE);
    CandidatesAre(files, active);
    var i := 0;
    while i < |candidates| && total > MAX_TOTAL_LOG_BYTES
      invariant 0 <= i <= |candidates|
      invariant total == TotalSize(files) - TotalSize(candidates[..i])
      invariant i > 0 ==> TotalSize(files) - TotalSize(candidates[..i - 1]) > MAX_TOTAL_LOG_BYTES
    {
      assert candidates[..i + 1][..i] == candidates[..i];
      total := total - candidates[i].size;
      i := i + 1;
    }
    doomed := candidates[..i];
    OldestPrune(files, active, i);
  }

  lemma CandidatesAre(files: seq<LogFile>, active: string)
    requires DistinctNames(files)
    ensures var candidates := Sort(NotActive(files, active), BY_AGE);
            && Ordered(candidates, BY_AGE) && DistinctNames(candidates)
            && forall f :: f in candidates <==> f in files && f.name != active
  {
    var candidates := Sort(NotActive(files, active), BY_AGE);
    ByAgeIsTotal();
    SortSorts(NotActive(files, active), BY_AGE);
    NotActiveMembers(files, active);
    assert forall f :: f in candidates <==> f in multiset(candidates);
    assert forall f :: f in NotActive(files, active) <==> f in multiset(NotActive(files, active));
    forall i, j | 0 <= i < j < |candidates| ensures candidates[i].name != candidates[j].name {
      OnceEach(files, candidates, i, j);
    }
  }

  lemma OnceOnly(files: seq<LogFile>, a: nat)
    requires DistinctNames(files) && a < |files|
    ensures multiset(files)[files[a]] == 1
  {
    assert files == files[..a] + [files[a]] + files[a + 1..];
    assert files[a] !in files[..a] && files[a] !in files[a + 1..];
  }

  lemma OnceEach(files: seq<LogFile>, picked: seq<LogFile>, i: nat, j: nat)
    requires DistinctNames(files) && i < j < |picked|
    requires forall f :: multiset(picked)[f] <= multiset(files)[f]
    ensures picked[i].name != picked[j].name
  {
    var f, g := picked[i], picked[j];
    assert picked == picked[..i] + [f] + picked[i + 1..j] + [g] + picked[j + 1..];
    assert multiset(picked)[f] > 0 && multiset(picked)[g] > 0;
    assert f in multiset(files) && g in multiset(files);
    var a :| 0 <= a < |files| && files[a] == f;
    OnceOnly(files, a);
    var b :| 0 <= b < |files| && files[b] == g;
  }

  lemma OldestPrune(files: seq<LogFile>, active: string, n: nat)
    requires DistinctNames(files)
    requires n <= |Sort(NotActive(files, active), BY_AGE)|
    requires var candidates := Sort(NotActive(files, active), BY_AGE);
             && (n > 0 ==> TotalSize(files) - TotalSize(candidates[..n - 1]) > MAX_TOTAL_LOG_BYTES)
             && (TotalSize(files) - TotalSize(candidates[..n]) <= MAX_TOTAL_LOG_BYTES || n == |candidates|)
    ensures Prunes(files, active, Sort(NotActive(files, active), BY_AGE)[..n])
  {
    CandidatesAre(files, active);
    var candidates := Sort(NotActive(files, active), BY_AGE);
    var doomed := candidates[..n];
    assert n > 0 ==> doomed[..n - 1] == candidates[..n - 1];
    FrontIsOldest(candidates, n);
    assert n == |candidates| ==> doomed == candidates;
  }

  lemma FrontIsOldest(sorted: seq<LogFile>, n: nat)
    requires Ordered(sorted, BY_AGE) && DistinctNames(sorted) && n <= |sorted|
    ensures forall d, f | d in sorted[..n] && f in sorted && NotYounger(f, d) :: f in sorted[..n]
    ensures forall f | f in sorted[..n] :: NotYounger(f, sorted[n - 1])
  {
    forall d, f | d in sorted[..n] && f in sorted && NotYounger(f, d) ensures f in sorted[..n] {
      var i :| 0 <= i < n && sorted[i] == d;
      var j :| 0 <= j < |sorted| && sorted[j] == f;
      if j >= n {
        assert BY_AGE(sorted[i], sorted[j]);
        SameAge(d, f);
      }
    }
    forall f | f in sorted[..n] ensures NotYounger(f, sorted[n - 1]) {
      var i :| 0 <= i < n && sorted[i] == f;
      LeqTotal(f.name, f.name);
      assert i < n - 1 ==> BY_AGE(sorted[i], sorted[n - 1]);
    }
  }

  lemma SameAge(a: LogFile, b: LogFile)
    requires NotYounger(a, b) && NotYounger(b, a)
    ensures a.name == b.name
  {
    LeqAntisymmetric(a.name, b.name);
  }

  /* ---------- No choice is left ---------- */

  /** The specification leaves no choice: the same files are removed in whatever order they
      are listed. */
  lemma PruningIsDetermined(files: seq<LogFile>, active: string, d: seq<LogFile>, e: seq<LogFile>)
    requires Prunes(files, active, d) && Prunes(files, active, e)
    ensures forall f :: f in d <==> f in e
  {
    if forall f | f in d :: f in e {
      SmallerPruning(files, active, d, e);
    } else {
      var f :| f in d && f !in e;
      forall g | g in e ensures g in d {
        LeqTotal(f.name, g.name);
      }
      SmallerPruning(files, active, e, d);
    }
  }

  lemma SmallerPruning(files: seq<LogFile>, active: string, d: seq<LogFile>, e: seq<LogFile>)
    requires Prunes(files, active, d) && Prunes(files, active, e) && forall g | g in d :: g in e
    ensures forall f | f in e :: f in d
  {
    if e != [] {
      var front, last := e[..|e| - 1], e[|e| - 1];
      assert e == front + [last];
      if last !in d {
        SubsetIsSmaller(d, front);
      }
    }
  }

  lemma {:induction false} SubsetIsSmaller(d: seq<LogFile>, e: seq<LogFile>)
    requires DistinctNames(d) && forall f | f in d :: f in e
    ensures TotalSize(d) <= TotalSize(e)
  {
    if d != [] {
      var last := d[|d| - 1];
      assert last in d;
      var k :| 0 <= k < |e| && e[k] == last;
      var rest := e[..k] + e[k + 1..];
      forall f | f in d[..|d| - 1] ensures f in rest {
        var j :| 0 <= j < |d| - 1 && d[j] == f;
        assert d[j].name != d[|d| - 1].name && f in d;
        var m :| 0 <= m < |e| && e[m] == f;
        assert m != k;
        assert rest[if m < k then m else m - 1] == f;
      }
      SubsetIsSmaller(d[..|d| - 1], rest);
      TotalWithout(e, k);
    }
  }

  lemma {:induction false} TotalWithout(files: seq<LogFile>, k: nat)
    requires k < |files|
    ensures TotalSize(files) == TotalSize(files[..k] + files[k + 1..]) + files[k].size
  {
    var rest := files[..k] + files[k + 1..];
    if k == |files| - 1 {
      assert rest == files[..k];
    } else {
      var front := files[..|files| - 1];
      TotalWithout(front, k);
      assert rest[..|rest| - 1] == front[..k] + front[k + 1..];
      assert rest[|rest| - 1] == files[|files| - 1];
    }
  }
}
