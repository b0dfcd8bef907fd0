/** Stable insertion sort by a total order, and the order of texts. */
module Sorting {
  /** Text comparison, character by character. */
  predicate Leq(a: string, b: string) {
    a == "" || (b != "" && (a[0] < b[0] || (a[0] == b[0] && Leq(a[1..], b[1..]))))
  }

  lemma {:induction false} LeqTotal(a: string, b: string)
    ensures Leq(a, b) || Leq(b, a)
  {
    if a != "" && b != "" && a[0] == b[0] {
      LeqTotal(a[1..], b[1..]);
    }
  }

  lemma {:induction false} LeqTransitive(a: string, b: string, c: string)
    requires Leq(a, b) && Leq(b, c)
    ensures Leq(a, c)
  {
    if a != "" && a[0] == b[0] == c[0] {
      LeqTransitive(a[1..], b[1..], c[1..]);
    }
  }

  lemma {:induction false} LeqAntisymmetric(a: string, b: string)
    requires Leq(a, b) && Leq(b, a)
    ensures a == b
  {
    if a != "" {
      LeqAntisymmetric(a[1..], b[1..]);
      assert a == [a[0]] + a[1..] && b == [b[0]] + b[1..];
    }
  }

  ghost predicate TotalOrder<T(!new)>(leq: (T, T) -> bool) {
    && (forall a, b :: leq(a, b) || leq(b, a))
    && (forall a, b, c :: leq(a, b) && leq(b, c) ==> leq(a, c))
  }

  /** Inserts behind everything that is not greater, so that equal elements keep their order. */
  function Insert<T>(x: T, sorted: seq<T>, leq: (T, T) -> bool): seq<T> {
    if sorted == [] then [x]
    else if leq(sorted[0], x) then [sorted[0]] + Insert(x, sorted[1..], leq)
    else [x] + sorted
  }

  function Sort<T>(xs: seq<T>, leq: (T, T) -> bool): seq<T> {
    if xs == [] then [] else Insert(xs[|xs| - 1], Sort(xs[..|xs| - 1], leq), leq)
  }

  ghost predicate Ordered<T>(xs: seq<T>, leq: (T, T) -> bool) {
    forall i, j | 0 <= i < j < |xs| :: leq(xs[i], xs[j])
  }

  lemma {:induction false} InsertKeepsMembers<T>(x: T, sorted: seq<T>, leq: (T, T) -> bool)
    ensures multiset(Insert(x, sorted, leq)) == multiset(sorted) + multiset{x}
  {
    if sorted == [] {
    } else if leq(sorted[0], x) {
      InsertKeepsMembers(x, sorted[1..], leq);
      assert sorted == [sorted[0]] + sorted[1..];
    }
  }

  lemma OrderedFront<T>(x: T, rest: seq<T>, leq: (T, T) -> bool)
    requires Ordered(rest, leq) && forall i | 0 <= i < |rest| :: leq(x, rest[i])
    ensures Ordered([x] + rest, leq)
  {
  }

  lemma {:induction false} InsertKeepsOrder<T(!new)>(x: T, sorted: seq<T>, leq: (T, T) -> bool)
    requires TotalOrder(leq) && Ordered(sorted, leq)
    ensures Ordered(Insert(x, sorted, leq), leq)
  {
    if sorted == [] {
    } else if leq(sorted[0], x) {
      InsertKeepsOrder(x, sorted[1..], leq);
      InsertKeepsMembers(x, sorted[1..], leq);
      var rest := Insert(x, sorted[1..], leq);
      forall i | 0 <= i < |rest| ensures leq(sorted[0], rest[i]) {
        assert rest[i] in multiset(rest);
      }
      OrderedFront(sorted[0], rest, leq);
    } else {
      OrderedFront(x, sorted, leq);
    }
  }

  /** The result is ordered, and nothing is lost or added. */
  lemma {:induction false} SortSorts<T(!new)>(xs: seq<T>, leq: (T, T) -> bool)
    requires TotalOrder(leq)
    ensures Ordered(Sort(xs, leq), leq) && multiset(Sort(xs, leq)) == multiset(xs)
  {
    if xs == [] {
    } else {
      SortSorts(xs[..|xs| - 1], leq);
      InsertKeepsOrder(xs[|xs| - 1], Sort(xs[..|xs| - 1], leq), leq);
      InsertKeepsMembers(xs[|xs| - 1], Sort(xs[..|xs| - 1], leq), leq);
      assert xs == xs[..|xs| - 1] + [xs[|xs| - 1]];
    }
  }
}
