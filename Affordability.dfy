/** The affordability classifier `get_afford` of app.py: a total map from a
    whole number of US dollars to an illustrative purchase. The source is a
    guarded chain; its reference here is an ordered table of exclusive upper
    bounds searched first-match-above, and the two are proved equal. */
module Affordability {

  /** `get_afford` as written: the guards are tried top to bottom and the
      first that holds gives the label. */
  function Afford(n: int): string
  {
    if n <= 0 then "☠️"
    else if n < 100 then "nice dinner for two 🍽️"
    else if n < 200 then "pair of Nike shoes 👟"
    else if n < 300 then "weekend hotel stay 🏨"
    else if n < 500 then "budget smartphone 📱"
    else if n < 750 then "round-trip domestic flight ✈️"
    else if n < 1_000 then "month's rent in a small town 🏠"
    else if n < 2_000 then "gaming console 🎮"
    else if n < 3_000 then "high-end laptop 💻"
    else if n < 5_000 then "used motorcycle 🏍️"
    else if n < 7_500 then "home theater system 📺"
    else if n < 10_000 then "semester at community college 🎓"
    else if n < 25_000 then "decent used car 🚗"
    else if n < 35_000 then "new economy car 🚙"
    else if n < 50_000 then "wedding celebration 💒"
    else if n < 75_000 then "year at private university 🎓"
    else if n < 100_000 then "Tesla Model 3 🚘"
    else if n < 150_000 then "mobile home 🏠"
    else if n < 250_000 then "small apartment in suburbs 🏢"
    else if n < 350_000 then "condo in a major city 🌃"
    else if n < 500_000 then "nice house in most cities 🏡"
    else if n < 750_000 then "beach house 🏖️"
    else if n < 1_500_000 then "luxury yacht ⛵"
    else if n < 2_000_000 then "Bugatti supercar 🏎️"
    else if n < 3_000_000 then "penthouse apartment 🏙️"
    else if n < 5_000_000 then "private jet share ✈️"
    else if n < 7_500_000 then "small vineyard 🍇"
    else if n < 10_000_000 then "mansion in Beverly Hills 🏰"
    else if n < 20_000_000 then "private jet ✈️"
    else if n < 30_000_000 then "luxury hotel 🏨"
    else if n < 50_000_000 then "private island 🏝️"
    else if n < 75_000_000 then "minor league sports team ⚾"
    else if n < 100_000_000 then "professional sports team 🏈"
    else if n < 200_000_000 then "skyscraper 🏢"
    else if n < 300_000_000 then "cruise ship 🚢"
    else if n < 500_000_000 then "space tourism ticket 🚀"
    else if n < 750_000_000 then "major hospital 🏥"
    else if n < 1_000_000_000 then "satellite constellation 🛰️"
    else if n < 5_000_000_000 then "nuclear power plant ⚡"
    else if n < 10_000_000_000 then "An aircraft carrier 🚢"
    else "small country's GDP 🌍"
  }

  /** The number of exclusive upper bounds in the chain. */
  const NumBounds: nat := 39

  /** The k-th exclusive upper bound of the chain, in the order they are tried. */
  function BoundAt(k: nat): int
    requires k < NumBounds
  {
    if k == 0 then 100
    else if k == 1 then 200
    else if k == 2 then 300
    else if k == 3 then 500
    else if k == 4 then 750
    else if k == 5 then 1_000
    else if k == 6 then 2_000
    else if k == 7 then 3_000
    else if k == 8 then 5_000
    else if k == 9 then 7_500
    else if k == 10 then 10_000
    else if k == 11 then 25_000
    else if k == 12 then 35_000
    else if k == 13 then 50_000
    else if k == 14 then 75_000
    else if k == 15 then 100_000
    else if k == 16 then 150_000
    else if k == 17 then 250_000
    else if k == 18 then 350_000
    else if k == 19 then 500_000
    else if k == 20 then 750_000
    else if k == 21 then 1_500_000
    else if k == 22 then 2_000_000
    else if k == 23 then 3_000_000
    else if k == 24 then 5_000_000
    else if k == 25 then 7_500_000
    else if k == 26 then 10_000_000
    else if k == 27 then 20_000_000
    else if k == 28 then 30_000_000
    else if k == 29 then 50_000_000
    else if k == 30 then 75_000_000
    else if k == 31 then 100_000_000
    else if k == 32 then 200_000_000
    else if k == 33 then 300_000_000
    else if k == 34 then 500_000_000
    else if k == 35 then 750_000_000
    else if k == 36 then 1_000_000_000
    else if k == 37 then 5_000_000_000
    else 10_000_000_000
  }

  /** The label of bucket k: bucket 0 is the sentinel for n <= 0, bucket k
      (1 <= k <= NumBounds) is the label returned below BoundAt(k - 1), and
      bucket NumBounds + 1 is the catch-all at or past the last bound. */
  function LabelAt(k: nat): string
    requires k <= NumBounds + 1
  {
    if k == 0 then "☠️"
    else if k == 1 then "nice dinner for two 🍽️"
    else if k == 2 then "pair of Nike shoes 👟"
    else if k == 3 then "weekend hotel stay 🏨"
    else if k == 4 then "budget smartphone 📱"
    else if k == 5 then "round-trip domestic flight ✈️"
    else if k == 6 then "month's rent in a small town 🏠"
    else if k == 7 then "gaming console 🎮"
    else if k == 8 then "high-end laptop 💻"
    else if k == 9 then "used motorcycle 🏍️"
    else if k == 10 then "home theater system 📺"
    else if k == 11 then "semester at community college 🎓"
    else if k == 12 then "decent used car 🚗"
    else if k == 13 then "new economy car 🚙"
    else if k == 14 then "wedding celebration 💒"
    else if k == 15 then "year at private university 🎓"
    else if k == 16 then "Tesla Model 3 🚘"
    else if k == 17 then "mobile home 🏠"
    else if k == 18 then "small apartment in suburbs 🏢"
    else if k == 19 then "condo in a major city 🌃"
    else if k == 20 then "nice house in most cities 🏡"
    else if k == 21 then "beach house 🏖️"
    else if k == 22 then "luxury yacht ⛵"
    else if k == 23 then "Bugatti supercar 🏎️"
    else if k == 24 then "penthouse apartment 🏙️"
    else if k == 25 then "private jet share ✈️"
    else if k == 26 then "small vineyard 🍇"
    else if k == 27 then "mansion in Beverly Hills 🏰"
    else if k == 28 then "private jet ✈️"
    else if k == 29 then "luxury hotel 🏨"
    else if k == 30 then "private island 🏝️"
    else if k == 31 then "minor league sports team ⚾"
    else if k == 32 then "professional sports team 🏈"
    else if k == 33 then "skyscraper 🏢"
    else if k == 34 then "cruise ship 🚢"
    else if k == 35 then "space tourism ticket 🚀"
    else if k == 36 then "major hospital 🏥"
    else if k == 37 then "satellite constellation 🛰️"
    else if k == 38 then "nuclear power plant ⚡"
    else if k == 39 then "An aircraft carrier 🚢"
    else "small country's GDP 🌍"
  }

  /** Index of the first bound at or after k that is strictly greater than
      n, or NumBounds when there is none. */
  function FirstAbove(n: int, k: nat): (i: nat)
    requires k <= NumBounds
    ensures k <= i <= NumBounds
    decreases NumBounds - k
  {
    if k == NumBounds then k
    else if n < BoundAt(k) then k
    else FirstAbove(n, k + 1)
  }

  /** The bucket of n in the table: 0 for the sentinel, otherwise 1 + the
      index of the first bound above n (NumBounds + 1 past every bound). */
  function Bucket(n: int): (b: nat)
    ensures b <= NumBounds + 1
  {
    if n <= 0 then 0 else 1 + FirstAbove(n, 0)
  }

  /** FirstAbove is the first bound above n: every bound it passes is at
      most n, and the one it stops at (if any) is above n. */
  lemma {:induction false} FirstAboveSpec(n: int, k: nat)
    requires k <= NumBounds
    ensures forall j :: k <= j < FirstAbove(n, k) ==> BoundAt(j) <= n
    ensures FirstAbove(n, k) < NumBounds ==> n < BoundAt(FirstAbove(n, k))
    decreases NumBounds - k
  {
    if k < NumBounds && BoundAt(k) <= n {
      FirstAboveSpec(n, k + 1);
    }
  }

  /** Conversely, the search from k ends at i when every bound in [k, i) is
      at most n and BoundAt(i) (if any) is above it. */
  lemma {:induction false} FirstAboveFrom(n: int, k: nat, i: nat)
    requires k <= i <= NumBounds
    requires forall j :: k <= j < i ==> BoundAt(j) <= n
    requires i < NumBounds ==> n < BoundAt(i)
    ensures FirstAbove(n, k) == i
    decreases i - k
  {
    if k < i {
      FirstAboveFrom(n, k + 1, i);
    }
  }

  /** The search is monotone in n. */
  lemma {:induction false} FirstAboveMonotone(n: int, m: int, k: nat)
    requires n <= m && k <= NumBounds
    ensures FirstAbove(n, k) <= FirstAbove(m, k)
    decreases NumBounds - k
  {
    if k < NumBounds && BoundAt(k) <= n {
      FirstAboveMonotone(n, m, k + 1);
    }
  }

  /** Each bound is below the next one. */
  lemma BoundsStep()
    ensures forall k :: 0 <= k < NumBounds - 1 ==> BoundAt(k) < BoundAt(k + 1)
  {
  }

  /** The bounds are strictly increasing from the first one on. */
  lemma {:induction false} BoundsIncreasingFrom(i: nat, j: nat)
    requires i < j < NumBounds
    ensures BoundAt(i) < BoundAt(j)
    decreases j - i
  {
    BoundsStep();
    if i + 1 < j {
      BoundsIncreasingFrom(i + 1, j);
    }
  }

  /** The bounds are strictly increasing, and all positive. */
  lemma BoundsIncreasing()
    ensures forall i, j :: 0 <= i < j < NumBounds ==> BoundAt(i) < BoundAt(j)
    ensures forall i :: 0 <= i < NumBounds ==> 0 < BoundAt(i)
  {
    forall i, j | 0 <= i < j < NumBounds
      ensures BoundAt(i) < BoundAt(j)
    {
      BoundsIncreasingFrom(i, j);
    }
    forall i | 0 < i < NumBounds
      ensures BoundAt(0) < BoundAt(i)
    {
      BoundsIncreasingFrom(0, i);
    }
  }

  /** The bucket of n is b when n lies between the bounds on either side of b. */
  lemma BucketIs(n: int, b: nat)
    requires 0 < n
    requires 0 < b <= NumBounds + 1
    requires b <= NumBounds ==> n < BoundAt(b - 1)
    requires 1 < b ==> BoundAt(b - 2) <= n
    ensures Bucket(n) == b
  {
    BoundsIncreasing();
    FirstAboveFrom(n, 0, b - 1);
  }

  /** AffordIsTableLookup on 0 < n < BoundAt(9). */
  lemma TableLookupPart0(n: int)
    requires 0 < n
    requires n < BoundAt(9)
    ensures Afford(n) == LabelAt(Bucket(n))
  {
    if n < 100 {
      BucketIs(n, 1);
    } else if n < 200 {
      BucketIs(n, 2);
    } else if n < 300 {
      BucketIs(n, 3);
    } else if n < 500 {
      BucketIs(n, 4);
    } else if n < 750 {
      BucketIs(n, 5);
    } else if n < 1_000 {
      BucketIs(n, 6);
    } else if n < 2_000 {
      BucketIs(n, 7);
    } else if n < 3_000 {
      BucketIs(n, 8);
    } else if n < 5_000 {
      BucketIs(n, 9);
    } else {
      BucketIs(n, 10);
    }
  }

  /** AffordIsTableLookup on BoundAt(9) <= n < BoundAt(19). */
  lemma TableLookupPart1(n: int)
    requires BoundAt(9) <= n
    requires n < BoundAt(19)
    ensures Afford(n) == LabelAt(Bucket(n))
  {
    if n < 10_000 {
      BucketIs(n, 11);
    } else if n < 25_000 {
      BucketIs(n, 12);
    } else if n < 35_000 {
      BucketIs(n, 13);
    } else if n < 50_000 {
      BucketIs(n, 14);
    } else if n < 75_000 {
      BucketIs(n, 15);
    } else if n < 100_000 {
      BucketIs(n, 16);
    } else if n < 150_000 {
      BucketIs(n, 17);
    } else if n < 250_000 {
      BucketIs(n, 18);
    } else if n < 350_000 {
      BucketIs(n, 19);
    } else {
      BucketIs(n, 20);
    }
  }

  /** AffordIsTableLookup on BoundAt(19) <= n < BoundAt(29). */
  lemma TableLookupPart2(n: int)
    requires BoundAt(19) <= n
    requires n < BoundAt(29)
    ensures Afford(n) == LabelAt(Bucket(n))
  {
    if n < 750_000 {
      BucketIs(n, 21);
    } else if n < 1_500_000 {
      BucketIs(n, 22);
    } else if n < 2_000_000 {
      BucketIs(n, 23);
    } else if n < 3_000_000 {
      BucketIs(n, 24);
    } else if n < 5_000_000 {
      BucketIs(n, 25);
    } else if n < 7_500_000 {
      BucketIs(n, 26);
    } else if n < 10_000_000 {
      BucketIs(n, 27);
    } else if n < 20_000_000 {
      BucketIs(n, 28);
    } else if n < 30_000_000 {
      BucketIs(n, 29);
    } else {
      BucketIs(n, 30);
    }
  }

  /** AffordIsTableLookup on BoundAt(29) <= n. */
  lemma TableLookupPart3(n: int)
    requires BoundAt(29) <= n
    ensures Afford(n) == LabelAt(Bucket(n))
  {
    if n < 75_000_000 {
      BucketIs(n, 31);
    } else if n < 100_000_000 {
      BucketIs(n, 32);
    } else if n < 200_000_000 {
      BucketIs(n, 33);
    } else if n < 300_000_000 {
      BucketIs(n, 34);
    } else if n < 500_000_000 {
      BucketIs(n, 35);
    } else if n < 750_000_000 {
      BucketIs(n, 36);
    } else if n < 1_000_000_000 {
      BucketIs(n, 37);
    } else if n < 5_000_000_000 {
      BucketIs(n, 38);
    } else if n < 10_000_000_000 {
      BucketIs(n, 39);
    } else {
      BucketIs(n, NumBounds + 1);
    }
  }

  /** The chain and the table agree on every integer: the chain is a
      first-match-above search of the bounds, with the bucket labels as its
      answers. */
  lemma AffordIsTableLookup(n: int)
    ensures Afford(n) == LabelAt(Bucket(n))
  {
    if n <= 0 {
    } else if n < BoundAt(9) {
      TableLookupPart0(n);
    } else if n < BoundAt(19) {
      TableLookupPart1(n);
    } else if n < BoundAt(29) {
      TableLookupPart2(n);
    } else {
      TableLookupPart3(n);
    }
  }

  /** What each bucket means for n. */
  lemma BucketSpec(n: int)
    ensures Bucket(n) == 0 <==> n <= 0
    ensures Bucket(n) == NumBounds + 1 <==> BoundAt(NumBounds - 1) <= n
    ensures 0 < Bucket(n) <= NumBounds ==> n < BoundAt(Bucket(n) - 1)
    ensures 0 < Bucket(n) ==> forall j :: 0 <= j < Bucket(n) - 1 ==> BoundAt(j) <= n
  {
    FirstAboveSpec(n, 0);
    BoundsIncreasing();
  }

  /** For 0 < n the label is the one of the first bound strictly above n. */
  lemma AffordFirstMatchAbove(n: int, i: nat)
    requires 0 < n && i < NumBounds
    requires n < BoundAt(i)
    requires forall j :: 0 <= j < i ==> BoundAt(j) <= n
    ensures Afford(n) == LabelAt(i + 1)
  {
    FirstAboveFrom(n, 0, i);
    AffordIsTableLookup(n);
  }

  /** The two ends of the table: the sentinel for every n <= 0, the
      catch-all for every n at or past the last bound. */
  lemma AffordEnds(n: int)
    ensures n <= 0 ==> Afford(n) == LabelAt(0)
    ensures BoundAt(NumBounds - 1) <= n ==> Afford(n) == LabelAt(NumBounds + 1)
  {
  }

  /** A larger amount never falls into a lower bucket. */
  lemma BucketMonotone(n: int, m: int)
    requires n <= m
    ensures Bucket(n) <= Bucket(m)
  {
    if 0 < n {
      FirstAboveMonotone(n, m, 0);
    }
  }

  /* LabelsDistinct is proved one label at a time, against every later
     label, so that each proof obligation compares at most 40 pairs of
     labels; this keeps each obligation cheap. Where the solver needs help,
     an assertion names a position at which the two labels differ. */

  // Label 0 against every later one.
  lemma LabelsDistinctPart0()
    ensures forall i, j :: 0 <= i < 1 && i < j <= NumBounds + 1 ==> LabelAt(i) != LabelAt(j)
  {
  }

  // Label 1 against every later one.
  lemma LabelsDistinctPart1()
    ensures forall i, j :: 1 <= i < 2 && i < j <= NumBounds + 1 ==> LabelAt(i) != LabelAt(j)
  {
    assert LabelAt(1)[0] != LabelAt(24)[0];
    assert LabelAt(1)[0] != LabelAt(35)[0];
  }

  // Label 2 against every later one.
  lemma LabelsDistinctPart2()
    ensures forall i, j :: 2 <= i < 3 && i < j <= NumBounds + 1 ==> LabelAt(i) != LabelAt(j)
  {
    assert LabelAt(2)[0] != LabelAt(3)[0];
    assert LabelAt(2)[1] != LabelAt(25)[1];
  }

  // Label 3 against every later one.
  lemma LabelsDistinctPart3()
    ensures forall i, j :: 3 <= i < 4 && i < j <= NumBounds + 1 ==> LabelAt(i) != LabelAt(j)
  {
    assert LabelAt(3)[0] != LabelAt(25)[0];
  }

  // Label 4 against every later one.
  lemma LabelsDistinctPart4()
    ensures forall i, j :: 4 <= i < 5 && i < j <= NumBounds + 1 ==> LabelAt(i) != LabelAt(j)
  {
    assert LabelAt(4)[0] != LabelAt(23)[0];
  }

  // Label 5 against every later one.
  lemma LabelsDistinctPart5()
    ensures forall i, j :: 5 <= i < 6 && i < j <= NumBounds + 1 ==> LabelAt(i) != LabelAt(j)
  {
  }

  // Label 6 against every later one.
  lemma LabelsDistinctPart6()
    ensures forall i, j :: 6 <= i < 7 && i < j <= NumBounds + 1 ==> LabelAt(i) != LabelAt(j)
  {
  }

  // Label 7 against every later one.
  lemma LabelsDistinctPart7()
    ensures forall i, j :: 7 <= i < 8 && i < j <= NumBounds + 1 ==> LabelAt(i) != LabelAt(j)
  {
    assert LabelAt(7)[0] != LabelAt(26)[0];
    assert LabelAt(7)[0] != LabelAt(36)[0];
  }

  // Label 8 against every later one.
  lemma LabelsDistinctPart8()
    ensures forall i, j :: 8 <= i < 9 && i < j <= NumBounds + 1 ==> LabelAt(i) != LabelAt(j)
  {
    assert LabelAt(8)[0] != LabelAt(12)[0];
    assert LabelAt(8)[0] != LabelAt(13)[0];
    assert LabelAt(8)[0] != LabelAt(30)[0];
  }

  // Label 9 against every later one.
  lemma LabelsDistinctPart9()
    ensures forall i, j :: 9 <= i < 10 && i < j <= NumBounds + 1 ==> LabelAt(i) != LabelAt(j)
  {
  }

  // Label 10 against every later one.
  lemma LabelsDistinctPart10()
    ensures forall i, j :: 10 <= i < 11 && i < j <= NumBounds + 1 ==> LabelAt(i) != LabelAt(j)
  {
    assert LabelAt(10)[0] != LabelAt(14)[0];
    assert LabelAt(10)[0] != LabelAt(38)[0];
    assert LabelAt(10)[0] != LabelAt(39)[0];
    assert LabelAt(10)[0] != LabelAt(40)[0];
  }

  // Label 11 against every later one.
  lemma LabelsDistinctPart11()
    ensures forall i, j :: 11 <= i < 12 && i < j <= NumBounds + 1 ==> LabelAt(i) != LabelAt(j)
  {
  }

  // Label 12 against every later one.
  lemma LabelsDistinctPart12()
    ensures forall i, j :: 12 <= i < 13 && i < j <= NumBounds + 1 ==> LabelAt(i) != LabelAt(j)
  {
    assert LabelAt(12)[0] != LabelAt(13)[0];
    assert LabelAt(12)[0] != LabelAt(30)[0];
  }

  // Label 13 against every later one.
  lemma LabelsDistinctPart13()
    ensures forall i, j :: 13 <= i < 14 && i < j <= NumBounds + 1 ==> LabelAt(i) != LabelAt(j)
  {
    assert LabelAt(13)[0] != LabelAt(30)[0];
  }

  // Label 14 against every later one.
  lemma LabelsDistinctPart14()
    ensures forall i, j :: 14 <= i < 15 && i < j <= NumBounds + 1 ==> LabelAt(i) != LabelAt(j)
  {
    assert LabelAt(14)[0] != LabelAt(38)[0];
    assert LabelAt(14)[0] != LabelAt(39)[0];
    assert LabelAt(14)[0] != LabelAt(40)[0];
  }

  // Label 15 against every later one.
  lemma LabelsDistinctPart15()
    ensures forall i, j :: 15 <= i < 16 && i < j <= NumBounds + 1 ==> LabelAt(i) != LabelAt(j)
  {
    assert LabelAt(15)[0] != LabelAt(18)[0];
  }

  // Label 16 against every later one.
  lemma LabelsDistinctPart16()
    ensures forall i, j :: 16 <= i < 17 && i < j <= NumBounds + 1 ==> LabelAt(i) != LabelAt(j)
  {
  }

  // Label 17 against every later one.
  lemma LabelsDistinctPart17()
    ensures forall i, j :: 17 <= i < 18 && i < j <= NumBounds + 1 ==> LabelAt(i) != LabelAt(j)
  {
    assert LabelAt(17)[0] != LabelAt(34)[0];
  }

  // Label 18 against every later one.
  lemma LabelsDistinctPart18()
    ensures forall i, j :: 18 <= i < 19 && i < j <= NumBounds + 1 ==> LabelAt(i) != LabelAt(j)
  {
  }

  // Label 19 against every later one.
  lemma LabelsDistinctPart19()
    ensures forall i, j :: 19 <= i < 20 && i < j <= NumBounds + 1 ==> LabelAt(i) != LabelAt(j)
  {
  }

  // Label 20 against every later one.
  lemma LabelsDistinctPart20()
    ensures forall i, j :: 20 <= i < 21 && i < j <= NumBounds + 1 ==> LabelAt(i) != LabelAt(j)
  {
  }

  // Label 21 against every later one.
  lemma LabelsDistinctPart21()
    ensures forall i, j :: 21 <= i < 22 && i < j <= NumBounds + 1 ==> LabelAt(i) != LabelAt(j)
  {
    assert LabelAt(21)[0] != LabelAt(22)[0];
    assert LabelAt(21)[0] != LabelAt(28)[0];
    assert LabelAt(21)[0] != LabelAt(29)[0];
  }

  // Label 22 against every later one.
  lemma LabelsDistinctPart22()
    ensures forall i, j :: 22 <= i < 23 && i < j <= NumBounds + 1 ==> LabelAt(i) != LabelAt(j)
  {
    assert LabelAt(22)[0] != LabelAt(28)[0];
    assert LabelAt(22)[7] != LabelAt(29)[7];
  }

  // Label 23 against every later one.
  lemma LabelsDistinctPart23()
    ensures forall i, j :: 23 <= i < 24 && i < j <= NumBounds + 1 ==> LabelAt(i) != LabelAt(j)
  {
  }

  // Label 24 against every later one.
  lemma LabelsDistinctPart24()
    ensures forall i, j :: 24 <= i < 25 && i < j <= NumBounds + 1 ==> LabelAt(i) != LabelAt(j)
  {
    assert LabelAt(24)[0] != LabelAt(35)[0];
  }

  // Label 25 against every later one.
  lemma LabelsDistinctPart25()
    ensures forall i, j :: 25 <= i < 26 && i < j <= NumBounds + 1 ==> LabelAt(i) != LabelAt(j)
  {
  }

  // Label 26 against every later one.
  lemma LabelsDistinctPart26()
    ensures forall i, j :: 26 <= i < 27 && i < j <= NumBounds + 1 ==> LabelAt(i) != LabelAt(j)
  {
    assert LabelAt(26)[0] != LabelAt(36)[0];
  }

  // Label 27 against every later one.
  lemma LabelsDistinctPart27()
    ensures forall i, j :: 27 <= i < 28 && i < j <= NumBounds + 1 ==> LabelAt(i) != LabelAt(j)
  {
    assert LabelAt(27)[1] != LabelAt(31)[1];
    assert LabelAt(27)[0] != LabelAt(32)[0];
    assert LabelAt(27)[0] != LabelAt(37)[0];
  }

  // Label 28 against every later one.
  lemma LabelsDistinctPart28()
    ensures forall i, j :: 28 <= i < 29 && i < j <= NumBounds + 1 ==> LabelAt(i) != LabelAt(j)
  {
    assert LabelAt(28)[0] != LabelAt(29)[0];
  }

  // Label 29 against every later one.
  lemma LabelsDistinctPart29()
    ensures forall i, j :: 29 <= i < 30 && i < j <= NumBounds + 1 ==> LabelAt(i) != LabelAt(j)
  {
  }

  // Label 30 against every later one.
  lemma LabelsDistinctPart30()
    ensures forall i, j :: 30 <= i < 31 && i < j <= NumBounds + 1 ==> LabelAt(i) != LabelAt(j)
  {
  }

  // Label 31 against every later one.
  lemma LabelsDistinctPart31()
    ensures forall i, j :: 31 <= i < 32 && i < j <= NumBounds + 1 ==> LabelAt(i) != LabelAt(j)
  {
    assert LabelAt(31)[0] != LabelAt(32)[0];
    assert LabelAt(31)[0] != LabelAt(37)[0];
  }

  // Label 32 against every later one.
  lemma LabelsDistinctPart32()
    ensures forall i, j :: 32 <= i < 33 && i < j <= NumBounds + 1 ==> LabelAt(i) != LabelAt(j)
  {
    assert LabelAt(32)[0] != LabelAt(37)[0];
  }

  // Label 33 against every later one.
  lemma LabelsDistinctPart33()
    ensures forall i, j :: 33 <= i < 34 && i < j <= NumBounds + 1 ==> LabelAt(i) != LabelAt(j)
  {
  }

  // Label 34 against every later one.
  lemma LabelsDistinctPart34()
    ensures forall i, j :: 34 <= i < 35 && i < j <= NumBounds + 1 ==> LabelAt(i) != LabelAt(j)
  {
  }

  // Label 35 against every later one.
  lemma LabelsDistinctPart35()
    ensures forall i, j :: 35 <= i < 36 && i < j <= NumBounds + 1 ==> LabelAt(i) != LabelAt(j)
  {
  }

  // Label 36 against every later one.
  lemma LabelsDistinctPart36()
    ensures forall i, j :: 36 <= i < 37 && i < j <= NumBounds + 1 ==> LabelAt(i) != LabelAt(j)
  {
  }

  // Label 37 against every later one.
  lemma LabelsDistinctPart37()
    ensures forall i, j :: 37 <= i < 38 && i < j <= NumBounds + 1 ==> LabelAt(i) != LabelAt(j)
  {
  }

  // Label 38 against every later one.
  lemma LabelsDistinctPart38()
    ensures forall i, j :: 38 <= i < 39 && i < j <= NumBounds + 1 ==> LabelAt(i) != LabelAt(j)
  {
    assert LabelAt(38)[0] != LabelAt(39)[0];
    assert LabelAt(38)[0] != LabelAt(40)[0];
  }

  // Label 39 against every later one.
  lemma LabelsDistinctPart39()
    ensures forall i, j :: 39 <= i < 40 && i < j <= NumBounds + 1 ==> LabelAt(i) != LabelAt(j)
  {
    assert LabelAt(39)[0] != LabelAt(40)[0];
  }

  /** The 41 labels are pairwise distinct. */
  lemma LabelsDistinct()
    ensures forall i, j :: 0 <= i < j <= NumBounds + 1 ==> LabelAt(i) != LabelAt(j)
  {
    LabelsDistinctPart0();
    LabelsDistinctPart1();
    LabelsDistinctPart2();
    LabelsDistinctPart3();
    LabelsDistinctPart4();
    LabelsDistinctPart5();
    LabelsDistinctPart6();
    LabelsDistinctPart7();
    LabelsDistinctPart8();
    LabelsDistinctPart9();
    LabelsDistinctPart10();
    LabelsDistinctPart11();
    LabelsDistinctPart12();
    LabelsDistinctPart13();
    LabelsDistinctPart14();
    LabelsDistinctPart15();
    LabelsDistinctPart16();
    LabelsDistinctPart17();
    LabelsDistinctPart18();
    LabelsDistinctPart19();
    LabelsDistinctPart20();
    LabelsDistinctPart21();
    LabelsDistinctPart22();
    LabelsDistinctPart23();
    LabelsDistinctPart24();
    LabelsDistinctPart25();
    LabelsDistinctPart26();
    LabelsDistinctPart27();
    LabelsDistinctPart28();
    LabelsDistinctPart29();
    LabelsDistinctPart30();
    LabelsDistinctPart31();
    LabelsDistinctPart32();
    LabelsDistinctPart33();
    LabelsDistinctPart34();
    LabelsDistinctPart35();
    LabelsDistinctPart36();
    LabelsDistinctPart37();
    LabelsDistinctPart38();
    LabelsDistinctPart39();
  }

  /** Two amounts get the same label exactly when they fall into the same
      bucket. */
  lemma SameLabelIffSameBucket(n: int, m: int)
    ensures Afford(n) == Afford(m) <==> Bucket(n) == Bucket(m)
  {
    AffordIsTableLookup(n);
    AffordIsTableLookup(m);
    LabelsDistinct();
  }

  /** The label changes at every listed bound: BoundAt(k) - 1 and BoundAt(k)
      lie in neighbouring buckets, whose labels differ. */
  lemma AffordChangesAtBound(k: nat)
    requires k < NumBounds
    ensures Bucket(BoundAt(k) - 1) == k + 1 && Bucket(BoundAt(k)) == k + 2
    ensures Afford(BoundAt(k) - 1) != Afford(BoundAt(k))
  {
    BoundsStep();
    BoundsIncreasing();
    BucketIs(BoundAt(k) - 1, k + 1);
    BucketIs(BoundAt(k), k + 2);
    AffordIsTableLookup(BoundAt(k) - 1);
    AffordIsTableLookup(BoundAt(k));
    LabelsDistinct();
  }

  /** Two neighbouring values on either side of the first bound. */
  lemma AffordExamples()
    ensures Afford(99) == "nice dinner for two 🍽️"
    ensures Afford(100) == "pair of Nike shoes 👟"
    ensures Afford(0) == Afford(-5) == "☠️"
    ensures Afford(10_000_000_000) == Afford(50_000_000_000) == "small country's GDP 🌍"
  {
  }
}
