/** The percentile-group catalog `get_income_groups` (app.py:179-203): three
    named lists of band labels, partly literal and partly built by
    `"p{}p{}".format(...)` over integer ranges. Each label is proved to parse
    to the band given by a reference table (Lo, Hi), and the catalog's
    properties are stated on that table. */
module IncomeGroups {
  import opened Percentile

  /** The keys of the catalog. */
  datatype GroupName = KeyGroups | DetailedPGroups | DetailedTopGroups

  /** The deciles p0p10 … p90p100. */
  function Deciles(): seq<string>
  {
    seq(10, i requires 0 <= i < 10 => Band(NatStr(i * 10), NatStr((i + 1) * 10)))
  }

  /** `key_groups`: six named bands followed by the deciles. */
  function KeyLabels(): seq<string>
  {
    NamedKeyLabels() + Deciles()
  }

  /** The whole percentiles p0p1 … p98p99. */
  function Percentiles(): seq<string>
  {
    seq(99, i requires 0 <= i < 99 => Band(NatStr(i), NatStr(i + 1)))
  }

  /** Tenths of a percentile in the top 1%. */
  function TenthLabels(): seq<string>
  {
    ["p99p99.1", "p99.1p99.2", "p99.2p99.3", "p99.3p99.4", "p99.4p99.5",
     "p99.5p99.6", "p99.6p99.7", "p99.7p99.8", "p99.8p99.9"]
  }

  /** Hundredths of a percentile in the top 0.1%. */
  function HundredthLabels(): seq<string>
  {
    ["p99.9p99.91", "p99.91p99.92", "p99.92p99.93", "p99.93p99.94", "p99.94p99.95",
     "p99.95p99.96", "p99.96p99.97", "p99.97p99.98", "p99.98p99.99"]
  }

  /** Thousandths of a percentile in the top 0.01%. */
  function ThousandthLabels(): seq<string>
  {
    ["p99.99p99.991", "p99.991p99.992", "p99.992p99.993", "p99.993p99.994", "p99.994p99.995",
     "p99.995p99.996", "p99.996p99.997", "p99.997p99.998", "p99.998p99.999"]
  }

  /** `detailed_p_groups`. */
  function DetailedLabels(): seq<string>
  {
    Percentiles() + TenthLabels() + HundredthLabels() + ThousandthLabels() + ["p99.999p100"]
  }

  /** `detailed_top_groups`: p0p100 … p99p100. */
  function TopLabels(): seq<string>
  {
    seq(100, i requires 0 <= i < 100 => Band(NatStr(i), "100"))
  }

  /** `groups[group_name]`. */
  function Labels(g: GroupName): seq<string>
  {
    match g
    case KeyGroups => KeyLabels()
    case DetailedPGroups => DetailedLabels()
    case DetailedTopGroups => TopLabels()
  }

  /** The number of labels in each group. */
  function Size(g: GroupName): nat
  {
    match g
    case KeyGroups => 16
    case DetailedPGroups => 127
    case DetailedTopGroups => 100
  }

  /** Reference table: the lower bound of the k-th band of group g. */
  function Lo(g: GroupName, k: nat): real
  {
    match g
    case KeyGroups =>
      if k == 0 || k == 1 then 0.0
      else if k == 2 then 50.0
      else if k == 3 then 90.0
      else if k == 4 then 99.0
      else if k == 5 then 99.99
      else 10.0 * (k - 6) as real
    case DetailedPGroups =>
      if k < 99 then k as real
      else if k < 108 then 99.0 + (k - 99) as real / 10.0
      else if k < 117 then 99.9 + (k - 108) as real / 100.0
      else if k < 126 then 99.99 + (k - 117) as real / 1000.0
      else 99.999
    case DetailedTopGroups => k as real
  }

  /** Reference table: the upper bound of the k-th band of group g. */
  function Hi(g: GroupName, k: nat): real
  {
    match g
    case KeyGroups =>
      if k == 0 || k == 4 || k == 5 then 100.0
      else if k == 1 then 50.0
      else if k == 2 then 90.0
      else if k == 3 then 99.0
      else 10.0 * (k - 5) as real
    case DetailedPGroups =>
      if k < 99 then (k + 1) as real
      else if k < 108 then 99.0 + (k - 98) as real / 10.0
      else if k < 117 then 99.9 + (k - 107) as real / 100.0
      else if k < 126 then 99.99 + (k - 116) as real / 1000.0
      else 100.0
    case DetailedTopGroups => 100.0
  }

  lemma GroupSizes(g: GroupName)
    ensures |Labels(g)| == Size(g)
  {
  }


  /** The lower numeral of the j-th band of tenths: the first one starts at 99. */
  function TenthLower(j: nat): string
    requires j < 10
  {
    if j == 0 then NatStr(99) else Tenth(j)
  }

  /** The lower numeral of the j-th band of hundredths: the first one starts at 99.9. */
  function HundredthLower(j: nat): string
    requires j < 10
  {
    if j == 0 then Tenth(9) else Hundredth(j)
  }

  /** The lower numeral of the j-th band of thousandths: the first one starts at 99.99. */
  function ThousandthLower(j: nat): string
    requires j < 10
  {
    if j == 0 then Hundredth(9) else Thousandth(j)
  }

  /** A label equal to the band of two numerals parses to their values. */
  lemma BandLabel(x: string, lower: string, upper: string, lo: real, hi: real)
    requires x == Band(lower, upper) && IsDecimal(lower) && IsDecimal(upper)
    requires DecValue(lower) == lo && DecValue(upper) == hi
    ensures WellFormed(x) && ParsePercentile(x) == [lo, hi]
  {
    ParseBand(lower, upper);
  }

  /** A label built from two integers parses to those integers. */
  lemma IntegerBand(x: string, a: nat, b: nat)
    requires x == Band(NatStr(a), NatStr(b))
    ensures WellFormed(x) && ParsePercentile(x) == [a as real, b as real]
  {
    NatStrValue(a);
    NatStrValue(b);
    BandLabel(x, NatStr(a), NatStr(b), a as real, b as real);
  }

  /** Indexing into a concatenation of five sequences. */
  lemma Concat5Index<T>(a: seq<T>, b: seq<T>, c: seq<T>, d: seq<T>, e: seq<T>, k: nat)
    requires |a| <= k < |a| + |b| + |c| + |d| + |e|
    ensures var s := a + b + c + d + e;
      && (k < |a| + |b| ==> s[k] == b[k - |a|])
      && (|a| + |b| <= k < |a| + |b| + |c| ==> s[k] == c[k - |a| - |b|])
      && (|a| + |b| + |c| <= k < |a| + |b| + |c| + |d| ==> s[k] == d[k - |a| - |b| - |c|])
      && (|a| + |b| + |c| + |d| <= k ==> s[k] == e[k - |a| - |b| - |c| - |d|])
  {
  }

  /** Where each literal section of `detailed_p_groups` sits. */
  lemma DetailedSections(k: nat)
    requires 99 <= k < 127
    ensures k < 108 ==> DetailedLabels()[k] == TenthLabels()[k - 99]
    ensures 108 <= k < 117 ==> DetailedLabels()[k] == HundredthLabels()[k - 108]
    ensures 117 <= k < 126 ==> DetailedLabels()[k] == ThousandthLabels()[k - 117]
    ensures k == 126 ==> DetailedLabels()[k] == "p99.999p100"
  {
    Concat5Index(Percentiles(), TenthLabels(), HundredthLabels(), ThousandthLabels(), ["p99.999p100"], k);
  }

  lemma TenthEntry(j: nat)
    requires j < 9
    ensures TenthLabels()[j] == Band(TenthLower(j), Tenth(j + 1))
  {
  }

  lemma HundredthEntry(j: nat)
    requires j < 9
    ensures HundredthLabels()[j] == Band(HundredthLower(j), Hundredth(j + 1))
  {
  }

  lemma ThousandthEntry(j: nat)
    requires j < 9
    ensures ThousandthLabels()[j] == Band(ThousandthLower(j), Thousandth(j + 1))
  {
  }

  lemma LastDetailedEntry()
    ensures "p99.999p100" == Band(ThousandthLower(9), NatStr(100))
  {
    assert NatStr(100) == "100";
  }

  /** The numerals of the bands of tenths and their values. */
  lemma TenthNumerals(k: nat)
    requires 99 <= k < 108
    ensures IsDecimal(TenthLower(k - 99)) && DecValue(TenthLower(k - 99)) == Lo(DetailedPGroups, k)
    ensures IsDecimal(Tenth(k - 98)) && DecValue(Tenth(k - 98)) == Hi(DetailedPGroups, k)
  {
    if k == 99 {
      NatStrValue(99);
    } else {
      TenthValue(k - 99);
    }
    TenthValue(k - 98);
  }

  /** The numerals of the bands of hundredths and their values. */
  lemma HundredthNumerals(k: nat)
    requires 108 <= k < 117
    ensures IsDecimal(HundredthLower(k - 108)) && DecValue(HundredthLower(k - 108)) == Lo(DetailedPGroups, k)
    ensures IsDecimal(Hundredth(k - 107)) && DecValue(Hundredth(k - 107)) == Hi(DetailedPGroups, k)
  {
    if k == 108 {
      TenthValue(9);
    } else {
      HundredthValue(k - 108);
    }
    HundredthValue(k - 107);
  }

  /** The numerals of the bands of thousandths (and the last band) and their values. */
  lemma ThousandthNumerals(k: nat)
    requires 117 <= k < 127
    ensures IsDecimal(ThousandthLower(k - 117)) && DecValue(ThousandthLower(k - 117)) == Lo(DetailedPGroups, k)
    ensures k < 126 ==> IsDecimal(Thousandth(k - 116)) && DecValue(Thousandth(k - 116)) == Hi(DetailedPGroups, k)
    ensures k == 126 ==> IsDecimal(NatStr(100)) && DecValue(NatStr(100)) == Hi(DetailedPGroups, k)
  {
    if k == 117 {
      HundredthValue(9);
    } else {
      ThousandthValue(k - 117);
    }
    if k < 126 {
      ThousandthValue(k - 116);
    } else {
      NatStrValue(100);
    }
  }

  lemma DetailedBand(k: nat)
    requires k < 127
    ensures WellFormed(DetailedLabels()[k])
    ensures ParsePercentile(DetailedLabels()[k]) == [Lo(DetailedPGroups, k), Hi(DetailedPGroups, k)]
  {
    var x := DetailedLabels()[k];
    if k < 99 {
      assert x == Percentiles()[k];
      IntegerBand(x, k, k + 1);
    } else {
      DetailedSections(k);
      if k < 108 {
        TenthNumerals(k);
        TenthEntry(k - 99);
        BandLabel(x, TenthLower(k - 99), Tenth(k - 98), Lo(DetailedPGroups, k), Hi(DetailedPGroups, k));
      } else if k < 117 {
        HundredthNumerals(k);
        HundredthEntry(k - 108);
        BandLabel(x, HundredthLower(k - 108), Hundredth(k - 107), Lo(DetailedPGroups, k), Hi(DetailedPGroups, k));
      } else if k < 126 {
        ThousandthNumerals(k);
        ThousandthEntry(k - 117);
        BandLabel(x, ThousandthLower(k - 117), Thousandth(k - 116), Lo(DetailedPGroups, k), Hi(DetailedPGroups, k));
      } else {
        ThousandthNumerals(k);
        LastDetailedEntry();
        BandLabel(x, ThousandthLower(9), NatStr(100), Lo(DetailedPGroups, k), Hi(DetailedPGroups, k));
      }
    }
  }

  /** The six named bands at the head of `key_groups`. */
  function NamedKeyLabels(): seq<string>
  {
    ["p0p100", "p0p50", "p50p90", "p90p99", "p99p100", "p99.99p100"]
  }

  /** The lower numeral of the k-th named key band. */
  function NamedLower(k: nat): string
  {
    if k <= 1 then NatStr(0)
    else if k == 2 then NatStr(50)
    else if k == 3 then NatStr(90)
    else if k == 4 then NatStr(99)
    else Hundredth(9)
  }

  /** The upper numeral of the k-th named key band. */
  function NamedUpper(k: nat): string
  {
    if k == 1 then NatStr(50)
    else if k == 2 then NatStr(90)
    else if k == 3 then NatStr(99)
    else NatStr(100)
  }

  /** The numerals of the named key bands, written out. */
  lemma KeyNumeralLiterals()
    ensures NatStr(0) == "0" && NatStr(50) == "50" && NatStr(90) == "90"
    ensures NatStr(99) == "99" && NatStr(100) == "100" && Hundredth(9) == "99.99"
  {
  }

  lemma NamedKeyEntry(k: nat)
    requires k < 6
    ensures NamedKeyLabels()[k] == Band(NamedLower(k), NamedUpper(k))
  {
    KeyNumeralLiterals();
    if k == 0 {
      assert NamedKeyLabels()[0] == Band("0", "100");
    } else if k == 1 {
      assert NamedKeyLabels()[1] == Band("0", "50");
    } else if k == 2 {
      assert NamedKeyLabels()[2] == Band("50", "90");
    } else if k == 3 {
      assert NamedKeyLabels()[3] == Band("90", "99");
    } else if k == 4 {
      assert NamedKeyLabels()[4] == Band("99", "100");
    } else {
      assert NamedKeyLabels()[5] == Band("99.99", "100");
    }
  }

  lemma NamedKeyLowerNumeral(k: nat)
    requires k < 6
    ensures IsDecimal(NamedLower(k)) && DecValue(NamedLower(k)) == Lo(KeyGroups, k)
  {
    if k <= 1 {
      NatStrValue(0);
    } else if k == 2 {
      NatStrValue(50);
    } else if k == 3 {
      NatStrValue(90);
    } else if k == 4 {
      NatStrValue(99);
    } else {
      HundredthValue(9);
    }
  }

  lemma NamedKeyUpperNumeral(k: nat)
    requires k < 6
    ensures IsDecimal(NamedUpper(k)) && DecValue(NamedUpper(k)) == Hi(KeyGroups, k)
  {
    if k == 1 {
      NatStrValue(50);
    } else if k == 2 {
      NatStrValue(90);
    } else if k == 3 {
      NatStrValue(99);
    } else {
      NatStrValue(100);
    }
  }

  lemma NamedKeyBand(k: nat)
    requires k < 6
    ensures WellFormed(KeyLabels()[k])
    ensures ParsePercentile(KeyLabels()[k]) == [Lo(KeyGroups, k), Hi(KeyGroups, k)]
  {
    var x := KeyLabels()[k];
    assert KeyLabels() == NamedKeyLabels() + Deciles();
    assert x == NamedKeyLabels()[k];
    NamedKeyEntry(k);
    NamedKeyLowerNumeral(k);
    NamedKeyUpperNumeral(k);
    BandLabel(x, NamedLower(k), NamedUpper(k), Lo(KeyGroups, k), Hi(KeyGroups, k));
  }

  lemma DecileBand(k: nat)
    requires 6 <= k < 16
    ensures WellFormed(KeyLabels()[k])
    ensures ParsePercentile(KeyLabels()[k]) == [Lo(KeyGroups, k), Hi(KeyGroups, k)]
  {
    var x := KeyLabels()[k];
    assert KeyLabels() == NamedKeyLabels() + Deciles();
    assert x == Deciles()[k - 6];
    assert ((k - 6) * 10) as real == Lo(KeyGroups, k) && ((k - 5) * 10) as real == Hi(KeyGroups, k);
    IntegerBand(x, (k - 6) * 10, (k - 5) * 10);
  }

  lemma KeyBand(k: nat)
    requires k < 16
    ensures WellFormed(KeyLabels()[k])
    ensures ParsePercentile(KeyLabels()[k]) == [Lo(KeyGroups, k), Hi(KeyGroups, k)]
  {
    if k < 6 {
      NamedKeyBand(k);
    } else {
      DecileBand(k);
    }
  }

  lemma TopBand(k: nat)
    requires k < 100
    ensures WellFormed(TopLabels()[k])
    ensures ParsePercentile(TopLabels()[k]) == [Lo(DetailedTopGroups, k), Hi(DetailedTopGroups, k)]
  {
    assert NatStr(100) == "100";
    IntegerBand(TopLabels()[k], k, 100);
  }

  /** Every band of the reference table lies inside [0, 100] and is not empty. */
  lemma BandInRange(g: GroupName, k: nat)
    requires k < Size(g)
    ensures 0.0 <= Lo(g, k) < Hi(g, k) <= 100.0
  {
  }

  /** Every catalog label parses to the two bounds of its band, and
      0 <= lower < upper <= 100. */
  lemma CatalogBand(g: GroupName, k: nat)
    requires k < |Labels(g)|
    ensures WellFormed(Labels(g)[k])
    ensures ParsePercentile(Labels(g)[k]) == [Lo(g, k), Hi(g, k)]
    ensures 0.0 <= Lo(g, k) < Hi(g, k) <= 100.0
  {
    GroupSizes(g);
    BandInRange(g, k);
    match g
    case KeyGroups => KeyBand(k);
    case DetailedPGroups => DetailedBand(k);
    case DetailedTopGroups => TopBand(k);
  }

  /** A label of a group parses, and its lower bound is the lower bound of
      one of the group's bands. */
  lemma MemberBand(g: GroupName, x: string)
    requires x in Labels(g)
    ensures WellFormed(x)
    ensures exists k :: 0 <= k < Size(g) && Lower(x) == Lo(g, k)
  {
    var k :| 0 <= k < |Labels(g)| && Labels(g)[k] == x;
    CatalogBand(g, k);
    GroupSizes(g);
    assert 0 <= k < Size(g) && Lower(x) == Lo(g, k);
  }

  /** Every label of every group is accepted by the parser. */
  lemma CatalogWellFormed(g: GroupName)
    ensures forall x :: x in Labels(g) ==> WellFormed(x)
  {
    forall x | x in Labels(g)
      ensures WellFormed(x)
    {
      var k :| 0 <= k < |Labels(g)| && Labels(g)[k] == x;
      CatalogBand(g, k);
    }
  }

  /** The reference table of `detailed_p_groups` tiles [0, 100]: it
      starts at 0, ends at 100, and each band ends where the next starts. */
  lemma DetailedTableTiles()
    ensures Lo(DetailedPGroups, 0) == 0.0 && Hi(DetailedPGroups, 126) == 100.0
    ensures forall k: nat :: k < 126 ==> Hi(DetailedPGroups, k) == Lo(DetailedPGroups, k + 1)
  {
  }

  /** The same on the labels themselves: the upper bound parsed from the
      k-th label is the lower bound parsed from the next one. */
  lemma DetailedLabelsTile(k: nat)
    requires k < 126
    ensures WellFormed(DetailedLabels()[k]) && WellFormed(DetailedLabels()[k + 1])
    ensures |ParsePercentile(DetailedLabels()[k])| == 2
    ensures ParsePercentile(DetailedLabels()[k])[1] == Lower(DetailedLabels()[k + 1])
  {
    DetailedBand(k);
    DetailedBand(k + 1);
    DetailedTableTiles();
  }

  /** In `detailed_p_groups` and `detailed_top_groups` the lower bounds
      strictly increase along the list. */
  lemma LowerIncreasing(g: GroupName, i: nat, j: nat)
    requires g != KeyGroups && i < j < Size(g)
    ensures Lo(g, i) < Lo(g, j)
  {
  }

  /** No two bands of `key_groups` coincide. */
  lemma KeyBandsDistinct(i: nat, j: nat)
    requires i < j < 16
    ensures Lo(KeyGroups, i) != Lo(KeyGroups, j) || Hi(KeyGroups, i) != Hi(KeyGroups, j)
  {
  }

  /** No group lists a label twice. */
  lemma NoDuplicates(g: GroupName, i: nat, j: nat)
    requires i < j < |Labels(g)|
    ensures Labels(g)[i] != Labels(g)[j]
  {
    GroupSizes(g);
    CatalogBand(g, i);
    CatalogBand(g, j);
    if g == KeyGroups {
      KeyBandsDistinct(i, j);
    } else {
      LowerIncreasing(g, i, j);
    }
    assert ParsePercentile(Labels(g)[i])[0] == Lo(g, i) && ParsePercentile(Labels(g)[i])[1] == Hi(g, i);
    assert ParsePercentile(Labels(g)[j])[0] == Lo(g, j) && ParsePercentile(Labels(g)[j])[1] == Hi(g, j);
  }
}
