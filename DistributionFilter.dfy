/** The row selection of the pipeline: `filter_data` (app.py:206-212) and
    the data steps of `main` that follow it, namely the projection of each
    label to its lower bound (app.py:75-76, 84), the sort by that bound
    (app.py:85) and the inclusive range selection (app.py:130). */
module DistributionFilter {
  import opened Percentile
  import opened IncomeGroups

  /** One row of a country's data table: the columns the pipeline reads. */
  datatype Row = Row(variable: string, year: int, percentile: string, value: real)

  /** A row after the projection of app.py:75-84: the lower bound of its
      band and its value. */
  datatype Point = Point(percentile: real, value: real)

  /** a is b with some elements left out, the rest in their original order. */
  predicate IsSubsequence<T(==)>(a: seq<T>, b: seq<T>)
    decreases |b|
  {
    if |a| == 0 then true
    else if |b| == 0 then false
    else if a[0] == b[0] then IsSubsequence(a[1..], b[1..])
    else IsSubsequence(a, b[1..])
  }

  /** Dropping the head of a subsequence keeps it a subsequence. */
  lemma {:induction false} SubsequenceTail<T>(a: seq<T>, b: seq<T>)
    requires |a| > 0 && IsSubsequence(a, b)
    ensures IsSubsequence(a[1..], b)
    decreases |b|, 0
  {
    if a[0] != b[0] {
      SubsequenceTail(a, b[1..]);
    }
    SubsequenceCons(a[1..], b[1..], b[0]);
    assert [b[0]] + b[1..] == b;
  }

  /** A subsequence of b is a subsequence of b with one more element in front. */
  lemma {:induction false} SubsequenceCons<T>(a: seq<T>, b: seq<T>, x: T)
    requires IsSubsequence(a, b)
    ensures IsSubsequence(a, [x] + b)
    decreases |b|, 1
  {
    if |a| > 0 && a[0] == x {
      assert ([x] + b)[1..] == b;
      SubsequenceTail(a, b);
    } else if |a| > 0 {
      assert ([x] + b)[1..] == b;
    }
  }

  /** Boolean-mask selection `df[mask]`: the elements satisfying keep, in
      their original order. */
  function Where<T(==,!new)>(xs: seq<T>, keep: T -> bool): (kept: seq<T>)
    ensures IsSubsequence(kept, xs)
    decreases |xs|
  {
    if |xs| == 0 then []
    else
      var rest := Where(xs[1..], keep);
      if keep(xs[0]) then
        assert ([xs[0]] + rest)[1..] == rest;
        [xs[0]] + rest
      else
        SubsequenceCons(rest, xs[1..], xs[0]);
        rest
  }

  /** Selection is sound and complete: exactly the elements satisfying keep
      survive. */
  lemma {:induction false} WhereMembers<T(!new)>(xs: seq<T>, keep: T -> bool)
    ensures forall x :: x in Where(xs, keep) <==> x in xs && keep(x)
    decreases |xs|
  {
    if |xs| > 0 {
      WhereMembers(xs[1..], keep);
      assert xs == [xs[0]] + xs[1..];
      if keep(xs[0]) {
        assert Where(xs, keep) == [xs[0]] + Where(xs[1..], keep);
      }
    }
  }

  /** Selection keeps every element satisfying keep with its multiplicity
      and drops every other one. */
  lemma {:induction false} WhereCount<T(!new)>(xs: seq<T>, keep: T -> bool)
    ensures forall x :: multiset(Where(xs, keep))[x] == if keep(x) then multiset(xs)[x] else 0
    decreases |xs|
  {
    if |xs| > 0 {
      WhereCount(xs[1..], keep);
      assert xs == [xs[0]] + xs[1..];
      assert multiset(xs) == multiset{xs[0]} + multiset(xs[1..]);
      if keep(xs[0]) {
        assert Where(xs, keep) == [xs[0]] + Where(xs[1..], keep);
        assert multiset(Where(xs, keep)) == multiset{xs[0]} + multiset(Where(xs[1..], keep));
      }
    }
  }

  /** Selecting with p and then with q is selecting with both. */
  lemma {:induction false} WhereWhere<T(!new)>(xs: seq<T>, p: T -> bool, q: T -> bool)
    ensures Where(Where(xs, p), q) == Where(xs, x => p(x) && q(x))
    decreases |xs|
  {
    if |xs| > 0 {
      WhereWhere(xs[1..], p, q);
      var rest := Where(xs[1..], p);
      if p(xs[0]) {
        assert Where(xs, p) == [xs[0]] + rest;
        assert ([xs[0]] + rest)[1..] == rest;
      }
    }
  }

  /** Selection keeps a list whose every element is kept unchanged; in
      particular it is idempotent. */
  lemma {:induction false} WhereAll<T(!new)>(xs: seq<T>, keep: T -> bool)
    requires forall x :: x in xs ==> keep(x)
    ensures Where(xs, keep) == xs
    decreases |xs|
  {
    if |xs| > 0 {
      assert forall x :: x in xs[1..] ==> x in xs;
      WhereAll(xs[1..], keep);
      assert keep(xs[0]);
      assert Where(xs, keep) == [xs[0]] + Where(xs[1..], keep);
    }
  }

  /** The selection condition of `filter_data`. */
  predicate Selected(r: Row, variable: string, year: int, g: GroupName)
  {
    r.variable == variable && r.year == year && r.percentile in Labels(g)
  }

  /** `filter_data`: three successive selections, by variable, by year and
      by membership of the label in the chosen group. */
  function Filter(rows: seq<Row>, variable: string, year: int, g: GroupName): seq<Row>
  {
    var byVariable := Where(rows, (r: Row) => r.variable == variable);
    var byYear := Where(byVariable, (r: Row) => r.year == year);
    Where(byYear, (r: Row) => r.percentile in Labels(g))
  }

  /** Three successive selections are one selection by the conjunction. */
  lemma WhereThree<T(!new)>(xs: seq<T>, p: T -> bool, q: T -> bool, r: T -> bool, all: T -> bool)
    requires forall x :: all(x) == (p(x) && q(x) && r(x))
    ensures Where(Where(Where(xs, p), q), r) == Where(xs, all)
  {
    WhereWhere(xs, p, q);
    var pq := x => p(x) && q(x);
    WhereWhere(xs, pq, r);
    WhereSame(xs, x => pq(x) && r(x), all);
  }

  /** The three selections of `filter_data` are one selection by their
      conjunction. */
  lemma FilterIsSelection(rows: seq<Row>, variable: string, year: int, g: GroupName)
    ensures Filter(rows, variable, year, g) == Where(rows, (r: Row) => Selected(r, variable, year, g))
  {
    WhereThree(rows, (r: Row) => r.variable == variable, (r: Row) => r.year == year,
      (r: Row) => r.percentile in Labels(g), (r: Row) => Selected(r, variable, year, g));
  }

  /** Selecting with two predicates that agree everywhere gives the same list. */
  lemma {:induction false} WhereSame<T(!new)>(xs: seq<T>, p: T -> bool, q: T -> bool)
    requires forall x :: p(x) == q(x)
    ensures Where(xs, p) == Where(xs, q)
    decreases |xs|
  {
    if |xs| > 0 {
      WhereSame(xs[1..], p, q);
    }
  }

  /** `filter_data` keeps a subsequence of its input, in the original order;
      every row it keeps matches the selection (soundness), every matching
      input row is kept with its multiplicity (completeness), and it drops
      every other row. */
  lemma FilterSpec(rows: seq<Row>, variable: string, year: int, g: GroupName)
    ensures IsSubsequence(Filter(rows, variable, year, g), rows)
    ensures forall r :: r in Filter(rows, variable, year, g) <==> r in rows && Selected(r, variable, year, g)
    ensures forall r :: Selected(r, variable, year, g) ==>
      multiset(Filter(rows, variable, year, g))[r] == multiset(rows)[r]
  {
    FilterIsSelection(rows, variable, year, g);
    WhereMembers(rows, (r: Row) => Selected(r, variable, year, g));
    WhereCount(rows, (r: Row) => Selected(r, variable, year, g));
  }

  /** Filtering twice with the same selection is filtering once. */
  lemma FilterIdempotent(rows: seq<Row>, variable: string, year: int, g: GroupName)
    ensures Filter(Filter(rows, variable, year, g), variable, year, g) == Filter(rows, variable, year, g)
  {
    var once := Filter(rows, variable, year, g);
    FilterSpec(rows, variable, year, g);
    FilterIsSelection(once, variable, year, g);
    WhereAll(once, (r: Row) => Selected(r, variable, year, g));
  }

  /** Every row `filter_data` keeps carries a label the parser accepts. */
  lemma FilteredWellFormed(rows: seq<Row>, variable: string, year: int, g: GroupName)
    ensures forall r :: r in Filter(rows, variable, year, g) ==> WellFormed(r.percentile)
  {
    FilterSpec(rows, variable, year, g);
    CatalogWellFormed(g);
  }

  /** The projection of app.py:75-84: keep the label and the value, parse the
      label and replace it by the first number of the parse. */
  function ProjectLower(rows: seq<Row>): (points: seq<Point>)
    requires forall r :: r in rows ==> WellFormed(r.percentile)
    ensures |points| == |rows|
    ensures forall i :: 0 <= i < |rows| ==> points[i].value == rows[i].value
    ensures forall i :: 0 <= i < |rows| ==> points[i].percentile == ParsePercentile(rows[i].percentile)[0]
  {
    seq(|rows|, i requires 0 <= i < |rows| => Point(Lower(rows[i].percentile), rows[i].value))
  }

  /** The projection turns the row of a catalog label into the lower bound
      of that label's band, keeping its value. */
  lemma ProjectLowerAtBand(rows: seq<Row>, g: GroupName, i: nat, k: nat)
    requires forall r :: r in rows ==> WellFormed(r.percentile)
    requires i < |rows| && k < |Labels(g)| && rows[i].percentile == Labels(g)[k]
    ensures ProjectLower(rows)[i] == Point(Lo(g, k), rows[i].value)
  {
    CatalogBand(g, k);
  }

  /** Every row whose label is the k-th of a group is projected to the k-th
      lower bound of that group. */
  lemma ProjectLowerBands(rows: seq<Row>, g: GroupName)
    requires forall r :: r in rows ==> WellFormed(r.percentile)
    ensures forall i, k :: 0 <= i < |rows| && 0 <= k < |Labels(g)| && rows[i].percentile == Labels(g)[k] ==>
      ProjectLower(rows)[i].percentile == Lo(g, k)
  {
    forall i, k | 0 <= i < |rows| && 0 <= k < |Labels(g)| && rows[i].percentile == Labels(g)[k]
      ensures ProjectLower(rows)[i].percentile == Lo(g, k)
    {
      ProjectLowerAtBand(rows, g, i, k);
    }
  }

  /** Ordered by percentile, ties in any order. */
  predicate SortedByPercentile(ps: seq<Point>)
  {
    forall i, j :: 0 <= i < j < |ps| ==> ps[i].percentile <= ps[j].percentile
  }

  /** `sort_values(by="percentile")` may return any (the sort is not stable)
      ordering of the points by percentile: a sorted permutation. */
  predicate IsSortOf(sorted: seq<Point>, ps: seq<Point>)
  {
    SortedByPercentile(sorted) && multiset(sorted) == multiset(ps)
  }

  /** A list holding the elements of ps and p is bounded below by any
      bound of both. */
  lemma InsertBounded(p: Point, ps: seq<Point>, rest: seq<Point>, lo: real)
    requires multiset(rest) == multiset(ps) + multiset{p}
    requires lo <= p.percentile && forall i :: 0 <= i < |ps| ==> lo <= ps[i].percentile
    ensures forall k :: 0 <= k < |rest| ==> lo <= rest[k].percentile
  {
    forall k | 0 <= k < |rest|
      ensures lo <= rest[k].percentile
    {
      assert multiset(rest)[rest[k]] > 0;
      assert rest[k] == p || rest[k] in ps;
    }
  }

  /** Inserts p into a sorted list before the first larger percentile. */
  function Insert(p: Point, ps: seq<Point>): (r: seq<Point>)
    requires SortedByPercentile(ps)
    ensures SortedByPercentile(r)
    ensures multiset(r) == multiset(ps) + multiset{p}
    decreases |ps|
  {
    if |ps| == 0 then [p]
    else if p.percentile <= ps[0].percentile then [p] + ps
    else
      var rest := Insert(p, ps[1..]);
      assert ps == [ps[0]] + ps[1..];
      InsertBounded(p, ps[1..], rest, ps[0].percentile);
      assert multiset([ps[0]] + rest) == multiset([ps[0]]) + multiset(rest);
      [ps[0]] + rest
  }

  /** One ordering the sort may return, which shows that every list has one. */
  function SortByPercentile(ps: seq<Point>): (r: seq<Point>)
    ensures IsSortOf(r, ps)
    decreases |ps|
  {
    if |ps| == 0 then []
    else
      assert ps == [ps[0]] + ps[1..];
      Insert(ps[0], SortByPercentile(ps[1..]))
  }

  /** The range selection of app.py:130: `between(start, end)`, inclusive
      at both ends. */
  function Between(ps: seq<Point>, start: real, end: real): seq<Point>
  {
    Where(ps, (p: Point) => start <= p.percentile <= end)
  }

  /** A subsequence of a sorted list is sorted. */
  lemma {:induction false} WhereSorted(ps: seq<Point>, keep: Point -> bool)
    requires SortedByPercentile(ps)
    ensures SortedByPercentile(Where(ps, keep))
    decreases |ps|
  {
    if |ps| > 0 {
      WhereSorted(ps[1..], keep);
      var rest := Where(ps[1..], keep);
      WhereMembers(ps[1..], keep);
      if keep(ps[0]) {
        forall j | 0 <= j < |rest|
          ensures ps[0].percentile <= rest[j].percentile
        {
          assert rest[j] in ps[1..];
        }
        assert Where(ps, keep) == [ps[0]] + rest;
      } else {
        assert Where(ps, keep) == rest;
      }
    }
  }

  /** The range step keeps exactly the points with start <= percentile <= end,
      in their order, and leaves a sorted list sorted. */
  lemma BetweenSpec(ps: seq<Point>, start: real, end: real)
    ensures IsSubsequence(Between(ps, start, end), ps)
    ensures forall p :: p in Between(ps, start, end) <==> p in ps && start <= p.percentile <= end
    ensures SortedByPercentile(ps) ==> SortedByPercentile(Between(ps, start, end))
  {
    WhereMembers(ps, (p: Point) => start <= p.percentile <= end);
    if SortedByPercentile(ps) {
      WhereSorted(ps, (p: Point) => start <= p.percentile <= end);
    }
  }
}
