# Income-percentile pipeline

This project models the data path of `app.py`, a Streamlit app that charts income
percentiles from the World Inequality Database. Only the pure pipeline behind the
UI is modelled, and the model is proved in Dafny:

- **Percentile** holds the band labels `p<lower>p<upper>` and `parse_percentile`.
  The parser strips the outer `p`s, splits on `p` and reads each part as a decimal
  number. Python's `strip` and `split` are modelled. Numbers are exact decimals
  `digits[.digits]`, read as reals.
- **IncomeGroups** is the catalog `get_income_groups`, with three groups:
  - `key_groups` has 16 labels.
  - `detailed_p_groups` has 127 labels.
  - `detailed_top_groups` has 100 labels.

  Each label is proved to parse to the band given by a reference table (`Lo`, `Hi`).
  The catalog's properties are then stated on that table: sizes, no duplicates, and
  the tiling of [0, 100] by `detailed_p_groups`.
- **DistributionFilter** covers `filter_data` (three boolean-mask selections) and the
  data steps of `main`:
  - the projection of each label to its lower bound;
  - the sort by percentile;
  - the inclusive `between` range selection.
- **SummaryTable** is `prepare_summary_data`. For ten fixed cutoffs it takes the first
  row at that exact percentile and truncates the value with `int`. It then divides by
  the rate, rounds with Python's `round` (ties to even) and attaches the
  affordability label. A cutoff without a row is an `IndexError` and becomes
  `NoRowAt(cutoff)`. A zero rate is a `ZeroDivisionError` and becomes
  `DivisionByZero`. The imperative loop `PrepareSummary` is proved equal to the
  specification function `Summary`.
- **Affordability** is `get_afford`: 40 guarded cases over 39 increasing bounds,
  then a catch-all `case _`. The
  chain is proved equal to a table lookup, and the lookup is proved monotone, with
  distinct labels and with a change exactly at each bound.
- **Pipeline** contains the end-to-end lemmas:
  - With `key_groups` the summary always fails at cutoff 1.
  - With `detailed_top_groups` it always fails, and never later than cutoff 99.9.
  - With `detailed_p_groups`, data that holds every label and a nonzero rate give a
    complete summary.

  These hold for every sorted permutation of the projected rows, because the sort is
  not stable.

On rounding: Python's `round` maps ties to the even neighbour, so a value of 5 at
rate 2 gives 2 and not 3. The model follows the code (`SummaryTable.RoundingExamples`).

## Model

| member | source | states |
|---|---|---|
| Percentile.ParsePercentile | app.py:151-153 | `parse_percentile` of an accepted label: the values of its stripped, `p`-separated parts, in order, at least one. ParseBand gives its value on every label `p<a>p<b>`, and CatalogBand on every catalog label |
| Percentile.Strip | app.py:153 | `x.strip("p")`: the leading strip, then the trailing strip. Their contracts and StripNoop characterise it |
| Percentile.StripLeading | app.py:153 | the result is a suffix of the input, everything dropped is the strip character, and the result does not start with it |
| Percentile.StripTrailing | app.py:153 | the result is a prefix of the input, everything dropped is the strip character, and the result does not end with it |
| Percentile.StripNoop | app.py:153 | a string that neither starts nor ends with the character is unchanged by `strip` |
| Percentile.Split | app.py:153 | `split` gives at least one part, no part contains the separator, and joining the parts with it gives the input back |
| Percentile.SplitJoin | app.py:153 | splitting a join of separator-free parts gives back exactly those parts (the inverse direction) |
| Percentile.DecValue | app.py:153 | `float` of a numeral `digits[.digits]`, exact and never negative. NatStrValue, TenthValue, HundredthValue and ThousandthValue give its value on each numeral of the catalog |
| Percentile.ParseBand | app.py:151-153 | every label `p<a>p<b>` of two decimal numerals is accepted, and it parses to exactly `[value(a), value(b)]` |
| Percentile.ParseTwo | app.py:151-153 | a label whose stripped parts are two numerals parses to their two values |
| Percentile.NatStrValue | app.py:185 | the decimal string of a natural number, as `"{}".format(i)` writes it here and at app.py:189 and app.py:202, is a numeral worth that number |
| Percentile.TenthValue | app.py:191 | the numerals `99.j` are worth 99 + j/10 |
| Percentile.HundredthValue | app.py:194 | the numerals `99.9j` are worth 99.9 + j/100 |
| Percentile.ThousandthValue | app.py:197 | the numerals `99.99j` are worth 99.99 + j/1000 |
| IncomeGroups.Labels | app.py:179-203 | `groups[group_name]`. GroupSizes, CatalogBand and NoDuplicates give its sizes, its parsed bands and its lack of repeats |
| IncomeGroups.KeyLabels | app.py:182-185 | the `key_groups` list: six named bands, then the deciles. KeyBand parses each label to its band |
| IncomeGroups.DetailedLabels | app.py:187-199 | the `detailed_p_groups` list: whole percentiles, then tenths, hundredths and thousandths, then the last band. DetailedBand and DetailedLabelsTile give its bands and their tiling |
| IncomeGroups.TopLabels | app.py:202 | the `detailed_top_groups` list `p{i}p100`. TopBand parses its labels |
| IncomeGroups.GroupSizes | app.py:179-203 | the groups have 16, 127 and 100 labels |
| IncomeGroups.KeyBand | app.py:182-185 | the k-th `key_groups` label is accepted and parses to the k-th band of the reference table |
| IncomeGroups.DetailedBand | app.py:187-199 | the k-th `detailed_p_groups` label is accepted and parses to the k-th band of the reference table |
| IncomeGroups.TopBand | app.py:202 | the k-th `detailed_top_groups` label `p{k}p100` is accepted and parses to [k, 100] |
| IncomeGroups.CatalogBand | app.py:179-203 | every label of every group is accepted and parses to `[Lo, Hi]` of its position, with 0 <= Lo < Hi <= 100 |
| IncomeGroups.MemberBand | app.py:179-203 | any member of a group parses, and its lower bound is the lower bound of one of the group's bands |
| IncomeGroups.CatalogWellFormed | app.py:179-203 | each label in the catalog is accepted by the parser |
| IncomeGroups.DetailedTableTiles | app.py:187-199 | the bands of `detailed_p_groups` start at 0, end at 100, and each one ends where the next begins |
| IncomeGroups.DetailedLabelsTile | app.py:187-199 | the same tiling stated on the labels: the parsed upper bound of label k is the parsed lower bound of label k+1 |
| IncomeGroups.LowerIncreasing | app.py:187-202 | in `detailed_p_groups` and `detailed_top_groups` the lower bounds strictly increase along the list |
| IncomeGroups.KeyBandsDistinct | app.py:182-185 | no two `key_groups` bands are equal |
| IncomeGroups.NoDuplicates | app.py:179-203 | no group lists the same label twice |
| DistributionFilter.Where | app.py:209-211 | a boolean-mask selection gives a subsequence of its input |
| DistributionFilter.WhereMembers | app.py:209-211 | an element survives a selection exactly when it is in the input and satisfies the mask |
| DistributionFilter.WhereCount | app.py:209-211 | a selection keeps every matching element with its multiplicity and drops every other one |
| DistributionFilter.WhereWhere | app.py:209-211 | two successive selections are one selection by the conjunction |
| DistributionFilter.WhereAll | app.py:209-211 | a selection whose mask holds on every element returns its input unchanged |
| DistributionFilter.Filter | app.py:206-212 | `filter_data`: selections by variable, by year and by group membership, in that order. FilterIsSelection, FilterSpec and FilterIdempotent give its meaning |
| DistributionFilter.FilterIsSelection | app.py:206-212 | `filter_data` is one selection by variable, year and membership of the label in the group |
| DistributionFilter.FilterSpec | app.py:206-212 | `filter_data` returns a subsequence of its input: sound, complete, and keeping each matching row with its multiplicity |
| DistributionFilter.FilterIdempotent | app.py:206-212 | filtering twice with the same arguments is filtering once |
| DistributionFilter.FilteredWellFormed | app.py:75-78 | every label that survives the filter is accepted by the parser, so the `apply(parse_percentile)` step cannot fail on it |
| DistributionFilter.ProjectLower | app.py:75-84 | the projection of the rows to (lower bound, value). What it means for catalog rows is stated by ProjectLowerAtBand |
| DistributionFilter.ProjectLowerAtBand | app.py:84 | a row whose label is the k-th label of a group becomes a point at that group's k-th lower bound `Lo`, with the row's value |
| DistributionFilter.ProjectLowerBands | app.py:75-84 | the same for every row at once: each row carrying the k-th label of the group is projected to the k-th lower bound |
| DistributionFilter.Insert | app.py:85 | inserting into a sorted list keeps it sorted and adds exactly one occurrence of the point |
| DistributionFilter.SortByPercentile | app.py:85 | every list of points has a sorted permutation (the orderings the sort may return) |
| DistributionFilter.WhereSorted | app.py:130 | a selection from a sorted list is sorted |
| DistributionFilter.Between | app.py:130 | the inclusive range selection `between(start, end)`. BetweenSpec gives its meaning |
| DistributionFilter.BetweenSpec | app.py:130 | `between(start, end)` keeps exactly the points with start <= percentile <= end, inclusive at both ends, in order and sorted if the input was |
| SummaryTable.Cutoffs | app.py:220-231 | the ten cutoffs with their captions, in the source's order. CutoffsIncreasing proves they strictly increase |
| SummaryTable.FirstAt | app.py:234 | the lookup of a cutoff picks the first point whose percentile equals it, and no earlier point is at it |
| SummaryTable.HasRowAtIndex | app.py:234 | any point at the cutoff makes the lookup succeed, no later than that point |
| SummaryTable.Trunc | app.py:234 | `int` truncates toward zero: within one below or above the value, by its sign |
| SummaryTable.RoundHalfEven | app.py:239 | `round` returns an integer within 1/2 of its argument, the even one on a tie |
| SummaryTable.RoundHalfEvenUnique | app.py:239 | those two properties determine the rounded value |
| SummaryTable.UsdValue | app.py:234-239 | `round(int(value) / rate)`. Trunc and RoundHalfEven characterise its two steps, and RoundingExamples gives concrete values |
| SummaryTable.RecordAt | app.py:233-251 | the record of one cutoff: its caption, the dollar value of the first row at the cutoff, and that value's label. SummaryShape connects it to the summary |
| SummaryTable.Summary | app.py:215-253 | the specification of `prepare_summary_data`. PrepareSummary is proved equal to it, and SummaryOkIff, SummaryShape and SummaryNoRow give its outcomes |
| SummaryTable.FirstMissing | app.py:233-234 | the first cutoff without a row: every earlier cutoff has one |
| SummaryTable.FirstMissingIs | app.py:233-234 | the characterisation above determines FirstMissing |
| SummaryTable.PrepareSummary | app.py:215-253 | the loop returns exactly the specification `Summary`: the first failing lookup, the division by a zero rate, or all ten records |
| SummaryTable.BuiltStep | app.py:233-251 | appending the record of the next cutoff keeps the invariant that the records match their cutoffs |
| SummaryTable.SummaryOkIff | app.py:215-253 | the summary succeeds if and only if the rate is nonzero and every cutoff has a row |
| SummaryTable.SummaryShape | app.py:220-251 | a successful summary has ten records in cutoff order; each takes its caption, `round(int(v) / rate)` of the first row at the cutoff, and `get_afford` of that amount |
| SummaryTable.SummaryNoRow | app.py:233-234 | a lookup failure names a cutoff with no row, and every earlier cutoff has a row |
| SummaryTable.SummaryMissingFirst | app.py:221-234 | with no row at 1 the summary fails on cutoff 1, whatever the rate |
| SummaryTable.SummaryFailsWithout | app.py:233-239 | any cutoff without a row makes the summary fail; with a nonzero rate it fails on that cutoff or an earlier one |
| SummaryTable.CutoffsIncreasing | app.py:220-231 | the cutoffs strictly increase |
| SummaryTable.RoundingExamples | app.py:234-239 | concrete values: 5 at rate 2 gives 2 and 7 gives 4; truncation goes toward zero; the ten values 1 … 99999 at rate 2 give 0, 2, 5, 25, 45, 48, 50, 500, 5000, 50000 |
| Affordability.Afford | app.py:306-390 | `get_afford` as written, one guard per case in the source's order. AffordIsTableLookup and the lemmas after it give its meaning |
| Affordability.AffordIsTableLookup | app.py:306-390 | the 41-case match equals a lookup of the label of the value's bucket in the bounds table |
| Affordability.BucketSpec | app.py:306-390 | bucket 0 exactly for n <= 0, the last bucket exactly for n >= 10^10, and otherwise n is below its bucket's bound and not below any earlier bound |
| Affordability.AffordFirstMatchAbove | app.py:306-390 | the label is the one of the first bound that n is below (the first matching case) |
| Affordability.AffordEnds | app.py:306-390 | n <= 0 gives the sentinel label, and n >= 10^10 gives the catch-all |
| Affordability.FirstAboveSpec | app.py:311-388 | the scan stops at the first bound above n |
| Affordability.FirstAboveMonotone | app.py:311-388 | a larger amount never stops the scan earlier |
| Affordability.BoundsIncreasing | app.py:311-388 | the 39 bounds are positive and strictly increasing |
| Affordability.BucketMonotone | app.py:306-390 | a larger amount never falls into an earlier bucket |
| Affordability.LabelsDistinct | app.py:306-390 | the 41 labels are pairwise distinct |
| Affordability.SameLabelIffSameBucket | app.py:306-390 | two amounts get the same label if and only if they fall into the same bucket |
| Affordability.AffordChangesAtBound | app.py:311-388 | at each bound b, b - 1 and b fall into consecutive buckets with different labels |
| Affordability.AffordExamples | app.py:306-390 | 99 is a nice dinner, 100 a pair of shoes, 0 and -5 the sentinel, and 10^10 and 5·10^10 a small country's GDP |
| Pipeline.Projected | app.py:68-84 | the filtered rows projected to (lower bound, value). ProjectedAtBands and SelectedRowProjected give its meaning |
| Pipeline.ProjectedAtBands | app.py:68-84 | every projected point sits at the lower bound of a band of the chosen group |
| Pipeline.SortKeepsRows | app.py:85 | a sorted permutation has a point at c exactly when the unsorted rows do |
| Pipeline.KeyHasNoLowerOne | app.py:182-185 | no `key_groups` band starts at 1 |
| Pipeline.TopHasNoLower999 | app.py:202 | no `detailed_top_groups` band starts at 99.9 |
| Pipeline.KeyHasNoRowAtOne | app.py:68-84 | after filtering and projection, `key_groups` data has no point at 1 |
| Pipeline.TopHasNoRowAt999 | app.py:68-84 | after filtering and projection, `detailed_top_groups` data has no point at 99.9 |
| Pipeline.KeyGroupsSummaryFails | app.py:68-95 | for `key_groups` the summary fails on cutoff 1 for all data and all rates |
| Pipeline.TopGroupsSummaryFails | app.py:68-95 | for `detailed_top_groups` the summary always fails; with a nonzero rate it fails on the lookup of a cutoff no later than 99.9 |
| Pipeline.DetailedCutoffBand | app.py:187-199 | in `detailed_p_groups` each of the ten cutoffs is the lower bound of exactly one band |
| Pipeline.DetailedCutoffLabel | app.py:187-199 | the same on labels: exactly one label parses to a lower bound equal to each cutoff |
| Pipeline.ProjectedRow | app.py:75-84 | a parsed row reappears after the projection at its lower bound |
| Pipeline.SelectedRowProjected | app.py:68-84 | a row that `filter_data` selects reappears after the projection at its lower bound |
| Pipeline.DetailedCutoffHasRow | app.py:68-85 | for `detailed_p_groups`, data holding every label has a point at every cutoff |
| Pipeline.DetailedSummarySucceeds | app.py:68-95 | for `detailed_p_groups`, data holding every label and a nonzero rate give a complete summary, whatever order the sort leaves ties in |

## Left out

- The Streamlit UI is left out: widgets, columns, `st.dataframe`, `st.write`, and `st.error`/`st.stop` on an empty selection. It is presentation and control flow around the pipeline.
- CSV loading (`load_countries` and `load_country_data`, app.py:139-148) and the metadata lookups (`format_variable`, `var_meta`) are left out. They are file I/O; the rows are an input of the model.
- `get_currency_conversion_rate` is left out because it is an HTTP call. The rate is an input, and any value, zero included, is handled.
- `get_locale`, `format_compact_currency` and the `usd`/`local` fields of a summary record are left out. They depend on locale formatting through babel, which the model does not cover.
- `create_summary_plot` and `create_detailed_plot` are left out because they are plotting.
- The display-only sort by value (app.py:82) is left out, because it changes no data.
- IEEE floating point is not modelled:
  - Percentiles and values are exact reals.
  - `float` of a numeral is its exact decimal value.
  - The comparisons at app.py:234 and app.py:130 are therefore exact. This is the intended reading: the cutoffs and the labels are written with the same decimals.
- ParsePercentile: it requires WellFormed, meaning every part is `digits[.digits]`. Other `float` syntaxes (signs, exponents, `inf`, spaces) and the `ValueError` of a malformed label are not modelled. Every catalog label is proved well formed, and only catalog labels reach the parser.
- `groups[group_name]` with an unknown name (a `KeyError`) is not modelled. The group names form a closed datatype, because the UI only offers the catalog's keys.
- DistributionFilter.SortByPercentile: the sort's tie order is not modelled. pandas' default sort is not stable, so the end-to-end lemmas hold for every sorted permutation instead of one order.
- Pandas index labels carried by the data frames are not modelled. The pipeline never reads them.
