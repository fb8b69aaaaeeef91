/** The summary table `prepare_summary_data` (app.py:215-253), without its
    currency formatting: for ten fixed cutoffs it takes the value of the
    first row whose percentile equals the cutoff, truncates it to an
    integer, converts it to US dollars with Python's `round` and attaches
    the affordability label. */
module SummaryTable {
  import opened Wrappers
  import opened Affordability
  import opened DistributionFilter

  /** One of the ten summary cutoffs: a lower bound and its caption. */
  datatype Cutoff = Cutoff(at: real, caption: string)

  /** One summary record: its caption, the value in whole US dollars and
      the affordability label of that value. */
  datatype Record = Record(percentile: string, valueUsd: int, afford: string)

  /** How the summary fails: `values[0]` of an empty selection (an
      IndexError), or a division by a zero rate (a ZeroDivisionError). */
  datatype SummaryError = NoRowAt(cutoff: real) | DivisionByZero

  /** The cutoffs of app.py:220-231, in their order. */
  function Cutoffs(): seq<Cutoff>
  {
    [Cutoff(1.0, "Bottom 1%"), Cutoff(5.0, "Bottom 5%"), Cutoff(10.0, "Bottom 10%"),
     Cutoff(50.0, "Middle 50%"), Cutoff(90.0, "Top 10%"), Cutoff(95.0, "Top 5%"),
     Cutoff(99.0, "Top 1%"), Cutoff(99.9, "Top 0.1%"), Cutoff(99.99, "Top 0.01%"),
     Cutoff(99.999, "Top 0.001%")]
  }

  /** The position of the first point whose percentile is c, or |ps| when
      there is none. */
  function FirstAt(ps: seq<Point>, c: real): (i: nat)
    ensures i <= |ps|
    ensures i < |ps| ==> ps[i].percentile == c
    ensures forall j :: 0 <= j < i ==> ps[j].percentile != c
    decreases |ps|
  {
    if |ps| == 0 then 0
    else if ps[0].percentile == c then 0
    else 1 + FirstAt(ps[1..], c)
  }

  /** Some point has percentile c. */
  predicate HasRowAt(ps: seq<Point>, c: real)
  {
    FirstAt(ps, c) < |ps|
  }

  /** A point at c is a row for c. */
  lemma HasRowAtIndex(ps: seq<Point>, c: real, i: nat)
    requires i < |ps| && ps[i].percentile == c
    ensures HasRowAt(ps, c) && FirstAt(ps, c) <= i
  {
  }

  /** Python's `int(x)` of a float: truncation toward zero. */
  function Trunc(x: real): (n: int)
    ensures 0.0 <= x ==> n as real <= x < n as real + 1.0
    ensures x < 0.0 ==> n as real - 1.0 < x <= n as real
  {
    if 0.0 <= x then x.Floor else -((-x).Floor)
  }

  /** Python's `round(x)`: the nearest integer, ties to the even one. */
  function RoundHalfEven(x: real): (n: int)
    ensures -0.5 <= x - n as real <= 0.5
    ensures (x - n as real == 0.5 || x - n as real == -0.5) ==> n % 2 == 0
  {
    var f := x.Floor;
    var d := x - f as real;
    if d < 0.5 then f
    else if d > 0.5 then f + 1
    else if f % 2 == 0 then f
    else f + 1
  }

  /** Round-half-even is the only integer within 1/2 of x that is even on a
      tie, so these properties define it. */
  lemma RoundHalfEvenUnique(x: real, n: int)
    requires -0.5 <= x - n as real <= 0.5
    requires (x - n as real == 0.5 || x - n as real == -0.5) ==> n % 2 == 0
    ensures n == RoundHalfEven(x)
  {
  }

  /** `value_usd` of app.py:239: the truncated value divided by the rate,
      rounded half to even. */
  function UsdValue(value: real, rate: real): int
    requires rate != 0.0
  {
    RoundHalfEven(Trunc(value) as real / rate)
  }

  /** The record of the k-th cutoff. */
  function RecordAt(ps: seq<Point>, rate: real, k: nat): Record
    requires k < |Cutoffs()| && rate != 0.0 && HasRowAt(ps, Cutoffs()[k].at)
  {
    var usd := UsdValue(ps[FirstAt(ps, Cutoffs()[k].at)].value, rate);
    Record(Cutoffs()[k].caption, usd, Afford(usd))
  }

  /** The first cutoff from k on that no point has, or |Cutoffs()|. */
  function FirstMissing(ps: seq<Point>, k: nat): (m: nat)
    requires k <= |Cutoffs()|
    ensures k <= m <= |Cutoffs()|
    ensures forall j :: k <= j < m ==> HasRowAt(ps, Cutoffs()[j].at)
    ensures m < |Cutoffs()| ==> !HasRowAt(ps, Cutoffs()[m].at)
    decreases |Cutoffs()| - k
  {
    if k == |Cutoffs()| then k
    else if !HasRowAt(ps, Cutoffs()[k].at) then k
    else FirstMissing(ps, k + 1)
  }

  /** FirstMissing(ps, 0) is the m before which every cutoff has a row and
      at which, unless m is past the end, one does not. */
  lemma FirstMissingIs(ps: seq<Point>, m: nat)
    requires m <= |Cutoffs()|
    requires forall j :: 0 <= j < m ==> HasRowAt(ps, Cutoffs()[j].at)
    requires m < |Cutoffs()| ==> !HasRowAt(ps, Cutoffs()[m].at)
    ensures FirstMissing(ps, 0) == m
  {
  }

  /** The outcome `prepare_summary_data` reaches: the first cutoff without
      a row fails the lookup; otherwise the first division fails on a zero
      rate; otherwise all ten records are built. */
  function Summary(ps: seq<Point>, rate: real): Result<seq<Record>, SummaryError>
  {
    var m := FirstMissing(ps, 0);
    if m == 0 then Err(NoRowAt(Cutoffs()[0].at))
    else if rate == 0.0 then Err(DivisionByZero)
    else if m < |Cutoffs()| then Err(NoRowAt(Cutoffs()[m].at))
    else Ok(seq(|Cutoffs()|, k requires 0 <= k < |Cutoffs()| => RecordAt(ps, rate, k)))
  }

  /** `records` are the records of the first |records| cutoffs, each of
      which has a row. */
  predicate Built(ps: seq<Point>, rate: real, records: seq<Record>)
  {
    |records| <= |Cutoffs()| && (0 < |records| ==> rate != 0.0) &&
    forall j :: 0 <= j < |records| ==>
      HasRowAt(ps, Cutoffs()[j].at) && records[j] == RecordAt(ps, rate, j)
  }

  /** Appending the record of the next cutoff keeps Built. */
  lemma BuiltStep(ps: seq<Point>, rate: real, records: seq<Record>, r: Record)
    requires Built(ps, rate, records) && |records| < |Cutoffs()| && rate != 0.0
    requires HasRowAt(ps, Cutoffs()[|records|].at) && r == RecordAt(ps, rate, |records|)
    ensures Built(ps, rate, records + [r])
  {
    var k := |records|;
    var next := records + [r];
    forall j | 0 <= j < |next|
      ensures HasRowAt(ps, Cutoffs()[j].at) && next[j] == RecordAt(ps, rate, j)
    {
      if j < k {
        assert next[j] == records[j];
      }
    }
  }

  /** Ten built records are the summary's records. */
  lemma BuiltAll(ps: seq<Point>, rate: real, records: seq<Record>)
    requires Built(ps, rate, records) && |records| == |Cutoffs()|
    ensures FirstMissing(ps, 0) == |Cutoffs()| && rate != 0.0
    ensures records == seq(|Cutoffs()|, k requires 0 <= k < |Cutoffs()| => RecordAt(ps, rate, k))
  {
    FirstMissingIs(ps, |Cutoffs()|);
  }

  /** No row at the cutoff after the built ones: the summary fails there. */
  lemma BuiltMissing(ps: seq<Point>, rate: real, records: seq<Record>)
    requires Built(ps, rate, records) && |records| < |Cutoffs()|
    requires !HasRowAt(ps, Cutoffs()[|records|].at)
    ensures FirstMissing(ps, 0) == |records|
  {
    FirstMissingIs(ps, |records|);
  }

  /** `prepare_summary_data`: one pass over the cutoffs, appending a record
      per cutoff and stopping at the first failure. */
  method PrepareSummary(ps: seq<Point>, rate: real) returns (result: Result<seq<Record>, SummaryError>)
    ensures result == Summary(ps, rate)
  {
    var cutoffs := Cutoffs();
    var records: seq<Record> := [];
    var k := 0;
    while k < |cutoffs|
      invariant 0 <= k <= |cutoffs| && |records| == k
      invariant Built(ps, rate, records)
    {
      var cutoff := cutoffs[k];
      var i := FirstAt(ps, cutoff.at);
      if i == |ps| {
        BuiltMissing(ps, rate, records);
        result := Err(NoRowAt(cutoff.at));
        return;
      }
      if rate == 0.0 {
        result := Err(DivisionByZero);
        return;
      }
      var valueUsd := UsdValue(ps[i].value, rate);
      var record := Record(cutoff.caption, valueUsd, Afford(valueUsd));
      BuiltStep(ps, rate, records, record);
      records := records + [record];
      k := k + 1;
    }
    BuiltAll(ps, rate, records);
    result := Ok(records);
  }

  /** The summary succeeds exactly when every cutoff has a row and the rate
      is not zero. */
  lemma SummaryOkIff(ps: seq<Point>, rate: real)
    ensures Summary(ps, rate).Ok? <==>
      rate != 0.0 && forall k :: 0 <= k < |Cutoffs()| ==> HasRowAt(ps, Cutoffs()[k].at)
  {
  }

  /** A successful summary has ten records in cutoff order, each built from
      the first point at its cutoff. */
  lemma SummaryShape(ps: seq<Point>, rate: real)
    requires Summary(ps, rate).Ok?
    ensures |Summary(ps, rate).value| == 10
    ensures forall k :: 0 <= k < 10 ==>
      var rec := Summary(ps, rate).value[k];
      var i := FirstAt(ps, Cutoffs()[k].at);
      && i < |ps| && ps[i].percentile == Cutoffs()[k].at
      && rec.percentile == Cutoffs()[k].caption
      && rec.valueUsd == RoundHalfEven(Trunc(ps[i].value) as real / rate)
      && rec.afford == Afford(rec.valueUsd)
  {
  }

  /** A lookup failure names a cutoff that has no row, and every earlier
      cutoff has one. */
  lemma SummaryNoRow(ps: seq<Point>, rate: real)
    requires Summary(ps, rate).Err? && Summary(ps, rate).error.NoRowAt?
    ensures exists k :: (0 <= k < |Cutoffs()| && Cutoffs()[k].at == Summary(ps, rate).error.cutoff &&
      !HasRowAt(ps, Cutoffs()[k].at) && forall j :: 0 <= j < k ==> HasRowAt(ps, Cutoffs()[j].at))
  {
    var m := FirstMissing(ps, 0);
    assert Cutoffs()[m].at == Summary(ps, rate).error.cutoff;
  }

  /** A missing first cutoff is reported as such whatever the rate. */
  lemma SummaryMissingFirst(ps: seq<Point>, rate: real)
    requires !HasRowAt(ps, 1.0)
    ensures Summary(ps, rate) == Err(NoRowAt(1.0))
  {
  }

  /** Python's `round` sends ties to the even neighbour, so 5 / 2 rounds to
      2 and 7 / 2 to 4; `int` truncates toward zero. The values 1, 5, 10,
      50, 90, 95, 99, 999, 9999, 99999 at rate 2 become 0, 2, 5, 25, 45, 48,
      50, 500, 5000, 50000. */
  lemma RoundingExamples()
    ensures UsdValue(5.0, 2.0) == 2 && UsdValue(7.0, 2.0) == 4
    ensures UsdValue(5.9, 2.0) == 2 && UsdValue(-5.9, 2.0) == -2
    ensures UsdValue(3.0, 2.0) == 2 && UsdValue(1.0, -2.0) == 0
    ensures UsdValue(1.0, 2.0) == 0 && UsdValue(10.0, 2.0) == 5 && UsdValue(50.0, 2.0) == 25
    ensures UsdValue(90.0, 2.0) == 45 && UsdValue(95.0, 2.0) == 48 && UsdValue(99.0, 2.0) == 50
    ensures UsdValue(999.0, 2.0) == 500 && UsdValue(9999.0, 2.0) == 5000
    ensures UsdValue(99999.0, 2.0) == 50000
  {
  }

  /** The cutoffs increase along the list. */
  lemma CutoffsIncreasing(i: nat, j: nat)
    requires i < j < |Cutoffs()|
    ensures Cutoffs()[i].at < Cutoffs()[j].at
  {
  }

  /** A cutoff without a row makes the summary fail, on that cutoff or an
      earlier one (or on the division, for a zero rate). */
  lemma SummaryFailsWithout(ps: seq<Point>, rate: real, k: nat)
    requires k < |Cutoffs()| && !HasRowAt(ps, Cutoffs()[k].at)
    ensures Summary(ps, rate).Err?
    ensures rate != 0.0 ==> Summary(ps, rate).error.NoRowAt? && Summary(ps, rate).error.cutoff <= Cutoffs()[k].at
  {
    var m := FirstMissing(ps, 0);
    assert m <= k;
    if m < k {
      CutoffsIncreasing(m, k);
    }
  }
}
