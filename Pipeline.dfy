/** The data path of `main` from the selected group to the summary
    (app.py:68-97): filter, project to lower bounds, sort and summarise.
    The sort may order equal percentiles either way, so the lemmas hold for
    every sorted permutation of the projected rows. */
module Pipeline {
  import opened Wrappers
  import opened Percentile
  import opened IncomeGroups
  import opened DistributionFilter
  import opened SummaryTable

  /** The rows of the selection after app.py:75-84: lower bound and value. */
  function Projected(rows: seq<Row>, variable: string, year: int, g: GroupName): seq<Point>
  {
    FilteredWellFormed(rows, variable, year, g);
    ProjectLower(Filter(rows, variable, year, g))
  }

  /** Every projected point sits at the lower bound of a band of its group. */
  lemma ProjectedAtBands(rows: seq<Row>, variable: string, year: int, g: GroupName, p: Point)
    requires p in Projected(rows, variable, year, g)
    ensures exists k :: 0 <= k < Size(g) && p.percentile == Lo(g, k)
  {
    var kept := Filter(rows, variable, year, g);
    FilterSpec(rows, variable, year, g);
    var ps := Projected(rows, variable, year, g);
    var i :| 0 <= i < |ps| && ps[i] == p;
    assert kept[i] in kept;
    MemberBand(g, kept[i].percentile);
  }

  /** A sorted permutation has a point at c exactly when the original does. */
  lemma SortKeepsRows(sorted: seq<Point>, ps: seq<Point>, c: real)
    requires IsSortOf(sorted, ps)
    ensures HasRowAt(sorted, c) <==> HasRowAt(ps, c)
  {
    if HasRowAt(sorted, c) {
      var p := sorted[FirstAt(sorted, c)];
      assert p in multiset(sorted);
      assert p in ps;
    }
    if HasRowAt(ps, c) {
      var p := ps[FirstAt(ps, c)];
      assert p in multiset(ps);
      assert p in sorted;
    }
  }

  /** No band of `key_groups` starts at 1. */
  lemma KeyHasNoLowerOne(k: nat)
    requires k < Size(KeyGroups)
    ensures Lo(KeyGroups, k) != 1.0
  {
  }

  /** No band of `detailed_top_groups` starts at 99.9. */
  lemma TopHasNoLower999(k: nat)
    requires k < Size(DetailedTopGroups)
    ensures Lo(DetailedTopGroups, k) != 99.9
  {
  }

  /** After the projection, `key_groups` has no point at 1. */
  lemma KeyHasNoRowAtOne(rows: seq<Row>, variable: string, year: int)
    ensures !HasRowAt(Projected(rows, variable, year, KeyGroups), 1.0)
  {
    var ps := Projected(rows, variable, year, KeyGroups);
    if HasRowAt(ps, 1.0) {
      var p := ps[FirstAt(ps, 1.0)];
      ProjectedAtBands(rows, variable, year, KeyGroups, p);
      var k :| 0 <= k < Size(KeyGroups) && p.percentile == Lo(KeyGroups, k);
      KeyHasNoLowerOne(k);
    }
  }

  /** After the projection, `detailed_top_groups` has no point at 99.9. */
  lemma TopHasNoRowAt999(rows: seq<Row>, variable: string, year: int)
    ensures !HasRowAt(Projected(rows, variable, year, DetailedTopGroups), 99.9)
  {
    var ps := Projected(rows, variable, year, DetailedTopGroups);
    if HasRowAt(ps, 99.9) {
      var p := ps[FirstAt(ps, 99.9)];
      ProjectedAtBands(rows, variable, year, DetailedTopGroups, p);
    }
  }

  /** With `key_groups` the summary always fails on its first cutoff. */
  lemma KeyGroupsSummaryFails(rows: seq<Row>, variable: string, year: int, sorted: seq<Point>, rate: real)
    requires IsSortOf(sorted, Projected(rows, variable, year, KeyGroups))
    ensures Summary(sorted, rate) == Err(NoRowAt(1.0))
  {
    KeyHasNoRowAtOne(rows, variable, year);
    SortKeepsRows(sorted, Projected(rows, variable, year, KeyGroups), 1.0);
    SummaryMissingFirst(sorted, rate);
  }

  /** With `detailed_top_groups` the summary always fails: at the latest on
      the cutoff 99.9, unless the rate is zero. */
  lemma TopGroupsSummaryFails(rows: seq<Row>, variable: string, year: int, sorted: seq<Point>, rate: real)
    requires IsSortOf(sorted, Projected(rows, variable, year, DetailedTopGroups))
    ensures Summary(sorted, rate).Err?
    ensures rate != 0.0 ==> Summary(sorted, rate).error.NoRowAt? && Summary(sorted, rate).error.cutoff <= 99.9
  {
    TopHasNoRowAt999(rows, variable, year);
    SortKeepsRows(sorted, Projected(rows, variable, year, DetailedTopGroups), 99.9);
    assert Cutoffs()[7].at == 99.9;
    SummaryFailsWithout(sorted, rate, 7);
  }

  /** The position in `detailed_p_groups` of the band starting at the k-th cutoff. */
  function CutoffBand(k: nat): nat
    requires k < 10
  {
    [1, 5, 10, 50, 90, 95, 99, 108, 117, 126][k]
  }

  /** In `detailed_p_groups` every cutoff is the lower bound of exactly one
      band. */
  lemma DetailedCutoffBand(k: nat)
    requires k < 10
    ensures CutoffBand(k) < Size(DetailedPGroups)
    ensures Lo(DetailedPGroups, CutoffBand(k)) == Cutoffs()[k].at
    ensures forall j :: 0 <= j < Size(DetailedPGroups) && Lo(DetailedPGroups, j) == Cutoffs()[k].at ==> j == CutoffBand(k)
  {
    forall j | 0 <= j < Size(DetailedPGroups) && Lo(DetailedPGroups, j) == Cutoffs()[k].at
      ensures j == CutoffBand(k)
    {
      if j < CutoffBand(k) {
        LowerIncreasing(DetailedPGroups, j, CutoffBand(k));
      } else if j > CutoffBand(k) {
        LowerIncreasing(DetailedPGroups, CutoffBand(k), j);
      }
    }
  }

  /** The same on the labels: the label at CutoffBand(k) parses to a lower
      bound equal to the k-th cutoff, and no other label does. */
  lemma DetailedCutoffLabel(k: nat, j: nat)
    requires k < 10 && j < |DetailedLabels()|
    ensures CutoffBand(k) < |DetailedLabels()|
    ensures WellFormed(DetailedLabels()[CutoffBand(k)]) && WellFormed(DetailedLabels()[j])
    ensures Lower(DetailedLabels()[CutoffBand(k)]) == Cutoffs()[k].at
    ensures Lower(DetailedLabels()[j]) == Cutoffs()[k].at ==> j == CutoffBand(k)
  {
    GroupSizes(DetailedPGroups);
    DetailedCutoffBand(k);
    DetailedBand(CutoffBand(k));
    DetailedBand(j);
  }

  /** The data holds a row for label x of the selected variable and year. */
  predicate HasLabelRow(rows: seq<Row>, variable: string, year: int, x: string)
  {
    exists r :: r in rows && r.variable == variable && r.year == year && r.percentile == x
  }

  /** The data holds a row for every label of group g. */
  predicate Complete(rows: seq<Row>, variable: string, year: int, g: GroupName)
  {
    forall x :: x in Labels(g) ==> HasLabelRow(rows, variable, year, x)
  }

  /** A row of a list of parsed rows reappears after the projection at its
      lower bound. */
  lemma ProjectedRow(kept: seq<Row>, r: Row)
    requires forall x :: x in kept ==> WellFormed(x.percentile)
    requires r in kept
    ensures WellFormed(r.percentile)
    ensures HasRowAt(ProjectLower(kept), Lower(r.percentile))
  {
    var i :| 0 <= i < |kept| && kept[i] == r;
    var ps := ProjectLower(kept);
    assert ps[i] == Point(Lower(kept[i].percentile), kept[i].value);
    HasRowAtIndex(ps, Lower(r.percentile), i);
  }

  /** A selected row reappears after the projection at its lower bound. */
  lemma SelectedRowProjected(rows: seq<Row>, variable: string, year: int, g: GroupName, r: Row)
    requires r in rows && Selected(r, variable, year, g)
    ensures WellFormed(r.percentile)
    ensures HasRowAt(Projected(rows, variable, year, g), Lower(r.percentile))
  {
    FilterSpec(rows, variable, year, g);
    FilteredWellFormed(rows, variable, year, g);
    ProjectedRow(Filter(rows, variable, year, g), r);
  }

  /** With complete data, the band starting at the k-th cutoff has a row. */
  lemma DetailedCutoffHasRow(rows: seq<Row>, variable: string, year: int, k: nat)
    requires k < |Cutoffs()| && Complete(rows, variable, year, DetailedPGroups)
    ensures HasRowAt(Projected(rows, variable, year, DetailedPGroups), Cutoffs()[k].at)
  {
    GroupSizes(DetailedPGroups);
    DetailedCutoffLabel(k, CutoffBand(k));
    var x := DetailedLabels()[CutoffBand(k)];
    assert x in Labels(DetailedPGroups);
    assert HasLabelRow(rows, variable, year, x);
    var r :| r in rows && r.variable == variable && r.year == year && r.percentile == x;
    SelectedRowProjected(rows, variable, year, DetailedPGroups, r);
  }

  /** With `detailed_p_groups`, complete data for the selected variable and
      year and a nonzero rate, the summary succeeds. */
  lemma DetailedSummarySucceeds(rows: seq<Row>, variable: string, year: int, sorted: seq<Point>, rate: real)
    requires rate != 0.0 && Complete(rows, variable, year, DetailedPGroups)
    requires IsSortOf(sorted, Projected(rows, variable, year, DetailedPGroups))
    ensures Summary(sorted, rate).Ok?
  {
    var ps := Projected(rows, variable, year, DetailedPGroups);
    forall k | 0 <= k < |Cutoffs()|
      ensures HasRowAt(sorted, Cutoffs()[k].at)
    {
      DetailedCutoffHasRow(rows, variable, year, k);
      SortKeepsRows(sorted, ps, Cutoffs()[k].at);
    }
    SummaryOkIff(sorted, rate);
  }
}
