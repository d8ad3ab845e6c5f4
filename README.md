# CSR dashboard analytics, modelled in Dafny

The dashboard of this corporate-social-responsibility reporting app shows
records of children in welfare programmes. Every number it shows is computed
in the browser over an in-memory snapshot of those records. This project
models that client-side analytics and proves properties of it:

- **Dashboard page** (`dashboard.dfy`, module `Dashboard`)
  - the page state as a class whose filter record changes one key at a
    time, with the filtered list recomputed after each change;
  - the five-criterion conjunctive filter: case-insensitive search on name
    or location, district, gender, education label and age bracket;
  - the three summary counts;
  - the CSV text of the export.
- **Charts** (`charts.dfy`, module `Charts`)
  - the count dictionaries by district, education status and gender, built
    one record at a time in key-insertion order;
  - the four age buckets, counted in place;
  - the display label of each chart.
- **Dropout risk** (`risk.dfy`, module `Risk`)
  - the additive score, accumulated step by step and clamped at 100;
  - the stable ranking by descending score;
  - the high, medium and low tiers, the badge colour and icon, and the
    top-ten list.
- **Geospatial heat map** (`heatmap.dfy`, module `Heatmap`)
  - per-district accumulators updated in place: count, verified count,
    distinct locations and funding need;
  - the regions built from them, sorted by density;
  - the priority, density-colour and funding-colour thresholds.
- **Children table** (`children_table.dfy`, module `ChildrenTable`)
  - the badge variants of education and health statuses;
  - status and gender formatting;
  - the header count.

Shared pieces:
- `records.dfy` (modules `Records` and `Badge`): the child record, following
  the database row, with its enumerations and their literals.
- `text.dfy` (module `Text`): the JavaScript string operations used, on
  `seq<char>`.
- `seqs.dfy` (module `Seqs`): the array operations used — stable `filter`,
  `map`, key-insertion-ordered tallies and a stable descending sort.

Three behaviours of the code are easy to misread, and the model keeps them:
- The education pie label (src/components/dashboard/ChartsSection.tsx:39)
  upper-cases only the first character and replaces only the first `_`.
  `higher_secondary` therefore shows as "Higher secondary" in the chart
  (`Charts.EducationSliceLabelExample`) and as "Higher Secondary" in the
  table, which capitalises every word (`ChildrenTable.TableAndChartLabelsDiffer`).
- The education filter (src/pages/Dashboard.tsx:86) replaces only the first
  space of the label (`Dashboard.EducationLabelFirstSpaceOnly`).
- For the worst-case child (age 17, no education, critical health, no
  guardian, Rural District A), the raw sum of the weights is 130. The clamp
  brings the score to 100 (`Risk.WorstCaseClamped`).

## Model

| member | source | states |
|---|---|---|
| Records.LiteralsDistinct | src/integrations/supabase/types.ts:233-243 | distinct values of each enumeration have distinct wire literals |
| Text.Lower | src/pages/Dashboard.tsx:76-77 | `toLowerCase` keeps the length and lower-cases each ASCII letter in place, leaving other characters alone |
| Text.IncludesIffOccurs | src/pages/Dashboard.tsx:76-77 | `includes` holds exactly when the pattern occurs at some index of the text |
| Text.ReplaceFirstAt | src/pages/Dashboard.tsx:86 | `replace` with a one-character pattern changes only the first occurrence and keeps everything else |
| Text.UpperFirst | src/components/dashboard/ChartsSection.tsx:49-52 | `charAt(0).toUpperCase() + slice(1)` upper-cases the first character, keeps the rest and the length, and leaves the empty string empty |
| Text.BeforeFirstIsFirstPiece | src/components/dashboard/ChartsSection.tsx:28 | `split(' ')[0]` is the text before the first space, or the whole text when it has none |
| Text.NatToStringRoundTrip | src/components/dashboard/ChildrenTable.tsx:63 | reading back the decimal digits of a count gives the count |
| Seqs.FirstSeen | src/components/dashboard/ChartsSection.tsx:27 | the keys of a dictionary built by insertion are distinct and are exactly the values inserted |
| Seqs.TallyTotal | src/components/dashboard/ChartsSection.tsx:21-25 | the counts of a tally add up to the number of values tallied |
| Seqs.TallyEntries | src/components/dashboard/ChartsSection.tsx:21-25 | a tally has one entry per distinct value, holding that value's number of occurrences, and no other entries |
| Seqs.SortDesc | src/components/dashboard/RiskPrediction.tsx:54 | the sort returns a permutation of its input in non-increasing key order |
| Seqs.SortStable | src/components/dashboard/RiskPrediction.tsx:54 | the sort is stable: elements with equal keys keep their input order |
| Seqs.SortKeepsSum | src/components/dashboard/GeospatialHeatmap.tsx:52 | sorting does not change the sum of the sort key |
| Dashboard.FilterChildren | src/pages/Dashboard.tsx:73-102 | the filtered list holds every matching child as often as the input does, nothing else, in input order (a subsequence) |
| Dashboard.Matches | src/pages/Dashboard.tsx:73-102 | definition of the five conjunctive criteria; see `Dashboard.FilterChildren`, `Dashboard.SearchIsSubstring`, `Dashboard.EducationLabelsSelect`, `Dashboard.GenderLabelsSelect` and `Dashboard.AgeLabelsSelect` |
| Dashboard.AgeBounds | src/pages/Dashboard.tsx:91-97 | definition of the bracket table with its [0, 100] default; see `Dashboard.AgeLabelsSelect` |
| Dashboard.FilterChildrenIdempotent | src/pages/Dashboard.tsx:73-102 | filtering the filtered list again with the same filters changes nothing |
| Dashboard.InitialFiltersKeepAll | src/pages/Dashboard.tsx:33-39 | the initial filter record keeps every child, in order |
| Dashboard.SearchIsSubstring | src/pages/Dashboard.tsx:74-79 | a non-empty search keeps a child exactly when the lower-cased search occurs in the lower-cased name or location |
| Dashboard.SearchIgnoresCase | src/pages/Dashboard.tsx:74-79 | lower-casing the search text does not change which children pass |
| Dashboard.SearchExample | src/pages/Dashboard.tsx:74-79 | searching "asha" over Asha of Pune and Ravi of Delhi keeps only Asha |
| Dashboard.EducationLabelsNormalise | src/pages/Dashboard.tsx:84-88 | each education label of the filter panel, lower-cased with its first space replaced, is a status literal ("Higher Secondary" gives `higher_secondary`) |
| Dashboard.EducationLabelsSelect | src/pages/Dashboard.tsx:84-88 | each education label keeps exactly the children with that status |
| Dashboard.EducationLabelFirstSpaceOnly | src/pages/Dashboard.tsx:86 | only the first space of a label becomes `_` |
| Dashboard.GenderLabelsSelect | src/pages/Dashboard.tsx:82-83 | each gender label keeps exactly the children of that gender |
| Dashboard.AgeLabelsSelect | src/pages/Dashboard.tsx:90-99 | "All Ages" keeps everyone; each of the four brackets keeps exactly the ages within its inclusive bounds; an unknown label keeps ages 0 to 100 |
| Dashboard.DashboardState.constructor | src/pages/Dashboard.tsx:29-39 | the page starts with no children, the initial filters and an empty filtered list, consistent with each other |
| Dashboard.DashboardState.ApplyFilters | src/pages/Dashboard.tsx:72-104 | the filtered list becomes the filter of the children; nothing else changes |
| Dashboard.DashboardState.SetChildren | src/pages/Dashboard.tsx:46-64 | new children replace the old, the filters stay, and the filtered list is recomputed |
| Dashboard.DashboardState.HandleFilterChange | src/pages/Dashboard.tsx:106-108 | exactly the named filter field takes the new value; the other fields and the children stay; the filtered list is recomputed |
| Dashboard.Stats | src/pages/Dashboard.tsx:130-135 | the total is the number of children; the educated count is the total minus the `none` occurrences; the healthy count is the `excellent` plus the `good` occurrences; both are at most the total; the growth figure is the constant 24 |
| Dashboard.StatusCounts | src/pages/Dashboard.tsx:132-133 | the two `filter` counts equal the status occurrence counts: everyone but `none` for education, `excellent` plus `good` for health |
| Dashboard.EducatedComplement | src/pages/Dashboard.tsx:132 | the educated count and the count with no education add up to the total |
| Dashboard.CsvRowRoundTrip | src/pages/Dashboard.tsx:115-118 | splitting a row on commas gives back its seven fields when name, district and location hold no comma |
| Dashboard.CsvLines | src/pages/Dashboard.tsx:111-119 | the CSV text splits into the header line and one row per child, in order; with no children the text ends in a line break |
| Dashboard.CsvContent | src/pages/Dashboard.tsx:111-119 | definition: the data-URI prefix before the CSV text; see `Dashboard.CsvLines` and `Dashboard.CsvRowRoundTrip` |
| Charts.CountBy | src/components/dashboard/ChartsSection.tsx:21-25 | the dictionary built one value at a time equals the tally: insertion order, one count per key |
| Charts.Accumulate | src/components/dashboard/ChartsSection.tsx:21-25 | the loop leaves the keys in first-seen order, a count for exactly those keys, and each count equal to the key's number of occurrences |
| Charts.RelabelKeepsSum | src/components/dashboard/ChartsSection.tsx:27-30 | replacing keys by display labels keeps the total |
| Charts.BucketBounds | src/components/dashboard/ChartsSection.tsx:62-67 | ages up to 5, negatives included, go to 0-5; ages 16 and above, beyond 18 included, go to 16-18 |
| Charts.BucketsPartition | src/components/dashboard/ChartsSection.tsx:62-67 | the four bucket counts add up to the number of children |
| Charts.AgeDistribution | src/components/dashboard/ChartsSection.tsx:55-67 | each counter ends as the number of children in its bucket, and the counters add up to the number of children |
| Charts.AgeChartTotal | src/components/dashboard/ChartsSection.tsx:69-72 | the counts of the age chart's four bars add up to the four counters, zeros included |
| Charts.AgeChartData | src/components/dashboard/ChartsSection.tsx:69-72 | definition: the four buckets in their fixed order; see `Charts.AgeChartTotal` and `Charts.ChartsSection` |
| Charts.ChartsSection | src/components/dashboard/ChartsSection.tsx:21-72 | each chart's entries are the labelled tally of its key, or the buckets in fixed order; each chart's counts add up to the number of children |
| Charts.DistrictBarsPerDistrict | src/components/dashboard/ChartsSection.tsx:21-30 | there is one district bar per distinct district, whatever the labels |
| Charts.DistrictLabelsCanCoincide | src/components/dashboard/ChartsSection.tsx:27-30 | two different districts can show the same label ("Mumbai Central" and "Mumbai North" both read "Mumbai") |
| Charts.DistrictLabel | src/components/dashboard/ChartsSection.tsx:28 | definition: the text before the first space; see `Text.BeforeFirstIsFirstPiece` and `Charts.DistrictLabelsCanCoincide` |
| Charts.EducationSliceLabel | src/components/dashboard/ChartsSection.tsx:39 | keeps the length and upper-cases the first character; a status with no `_` after its first character (`none`, `primary`, `secondary`, `vocational`) is labelled by upper-casing its first character only; `Charts.SliceLabelOfWords` covers the statuses that have one |
| Charts.SliceLabelOfWords | src/components/dashboard/ChartsSection.tsx:39 | every status with a `_` after its first character has the form `first`, then `a` with no `_`, then `_`, then `b`; its label upper-cases the first character, turns only the first `_` after it into a space, and keeps everything else, later `_` included |
| Charts.EducationSliceLabelExample | src/components/dashboard/ChartsSection.tsx:38-41 | `higher_secondary` is labelled "Higher secondary" |
| Charts.GenderBarLabel | src/components/dashboard/ChartsSection.tsx:50 | definition: `Text.UpperFirst` of the literal; see `ChildrenTable.GenderDisplayFacts` |
| Charts.AgeBucketsExample | src/components/dashboard/ChartsSection.tsx:62-67 | ages 4, 6, 15 and 19 put one child in each bucket |
| Risk.AgeWeight | src/components/dashboard/RiskPrediction.tsx:29-31 | exactly one age rule fires: 30 above 16, 20 for 15-16, 10 below 6, otherwise 0 |
| Risk.CalculateDropoutRisk | src/components/dashboard/RiskPrediction.tsx:25-49 | the accumulated score is the clamped sum of the five weights and lies in [0, 100] |
| Risk.DropoutRisk | src/components/dashboard/RiskPrediction.tsx:25-49 | definition: the raw sum clamped at 100; see `Risk.RiskBounds` and `Risk.CalculateDropoutRisk` |
| Risk.RiskBounds | src/components/dashboard/RiskPrediction.tsx:26-48 | the raw sum is at most 130; the score is in [0, 100], equals the raw sum below 100 and is 100 from there on |
| Risk.WorstCaseClamped | src/components/dashboard/RiskPrediction.tsx:29-48 | every factor at its worst gives a raw 130, a score of exactly 100, and the high tier |
| Risk.NoFactorExample | src/components/dashboard/RiskPrediction.tsx:26-48 | a 10-year-old in secondary school, in good health, with a guardian, in an ordinary district scores 0 and is low risk |
| Risk.MissingGuardianRaises | src/components/dashboard/RiskPrediction.tsx:42 | losing the guardian adds 20 to the raw sum and never lowers the score |
| Risk.ChildrenWithRisk | src/components/dashboard/RiskPrediction.tsx:51-54 | the ranking is a permutation of the scored children, in non-increasing score order |
| Risk.RankedEntries | src/components/dashboard/RiskPrediction.tsx:51-54 | every ranked entry is an input child with its own score, and every input child is ranked |
| Risk.RankingStable | src/components/dashboard/RiskPrediction.tsx:54 | children with equal scores keep their input order |
| Risk.TierCounts | src/components/dashboard/RiskPrediction.tsx:56-57 | the high, medium and low filters split any list of scored children |
| Risk.TiersPartition | src/components/dashboard/RiskPrediction.tsx:100 | the low count, total minus high minus medium, is never negative and is the number of scores below 40; no tier count depends on the ranking order |
| Risk.LowRiskCount | src/components/dashboard/RiskPrediction.tsx:100 | definition: total minus high minus medium; see `Risk.TiersPartition` |
| Risk.TierExclusive | src/components/dashboard/RiskPrediction.tsx:56-57 | every score is in exactly one tier |
| Risk.RiskColorMatchesTier | src/components/dashboard/RiskPrediction.tsx:59-69 | the badge colour and the icon use the same 70/40 thresholds as the tiers |
| Risk.RiskColor | src/components/dashboard/RiskPrediction.tsx:59-63 | definition of the 70/40 colour thresholds; see `Risk.RiskColorMatchesTier` |
| Risk.RiskIconOf | src/components/dashboard/RiskPrediction.tsx:65-69 | definition of the 70/40 icon thresholds; see `Risk.RiskColorMatchesTier` |
| Risk.TopTen | src/components/dashboard/RiskPrediction.tsx:113 | the list shows the first ten ranked children, or all when fewer |
| Risk.TopTenAreHighest | src/components/dashboard/RiskPrediction.tsx:113 | every listed score is at least every unlisted score |
| Heatmap.AccumulatorStep | src/components/dashboard/GeospatialHeatmap.tsx:36-39 | folding in one child updates only its district: count and funding need go up, verified goes up when verified, and the location is added |
| Heatmap.AccumulatorMeaning | src/components/dashboard/GeospatialHeatmap.tsx:24-43 | the folded accumulator of a district holds the number of its children, the number of those verified, the set of their locations, and 15000 per child |
| Heatmap.AccumulatorEmpty | src/components/dashboard/GeospatialHeatmap.tsx:26-34 | a district first seen starts from zero counts and no locations |
| Heatmap.AccumulatorBounds | src/components/dashboard/GeospatialHeatmap.tsx:36-39 | verified and locations never exceed the count; a district with children has a location; the need is 15000 per child |
| Heatmap.AccumulateDistricts | src/components/dashboard/GeospatialHeatmap.tsx:24-43 | the in-place `reduce` yields one accumulator per district, in first-seen order, each equal to the fold of that district's children |
| Heatmap.ProcessHeatmapData | src/components/dashboard/GeospatialHeatmap.tsx:23-53 | the regions are the districts' totals in first-seen order, stably sorted by density |
| Heatmap.HeatmapData | src/components/dashboard/GeospatialHeatmap.tsx:45-52 | definition: the regions of the first-seen districts, stably sorted by density; see `Heatmap.RegionsAreOwnDistricts`, `Heatmap.HeatmapDistricts`, `Heatmap.HeatmapRegionFacts` and `Heatmap.HeatmapTotal` |
| Heatmap.PriorityOf | src/components/dashboard/GeospatialHeatmap.tsx:51 | high above 20 children, medium for 11-20, low otherwise |
| Heatmap.RegionsAreOwnDistricts | src/components/dashboard/GeospatialHeatmap.tsx:45-52 | each region carries its own district's totals, and every district gets its region |
| Heatmap.HeatmapDistricts | src/components/dashboard/GeospatialHeatmap.tsx:24-45 | one region per distinct district, covering every district of the input |
| Heatmap.HeatmapRegionFacts | src/components/dashboard/GeospatialHeatmap.tsx:36-52 | every region keeps verified ≤ count and 1 ≤ locations ≤ count, a need of 15000 per child, density = count and its priority; densities do not increase |
| Heatmap.HeatmapTotal | src/components/dashboard/GeospatialHeatmap.tsx:24-49 | the district counts add up to the number of children |
| Heatmap.DensityColor | src/components/dashboard/GeospatialHeatmap.tsx:57-62 | red above 20, orange for 16-20, yellow for 11-15, green otherwise |
| Heatmap.FundingColor | src/components/dashboard/GeospatialHeatmap.tsx:64-69 | red above 100000, orange above 50000, yellow above 25000, green otherwise |
| Heatmap.PriorityMatchesDensity | src/components/dashboard/GeospatialHeatmap.tsx:71-77 | the priority badge is destructive exactly when the density is red, secondary exactly when orange or yellow, default exactly when green |
| Heatmap.PriorityVariant | src/components/dashboard/GeospatialHeatmap.tsx:71-77 | definition of the priority switch; see `Heatmap.PriorityMatchesDensity` |
| ChildrenTable.EducationBadgeMatchesRisk | src/components/dashboard/ChildrenTable.tsx:26-35 | the education badge is destructive for `none`, secondary for `primary` and default for the others, matching the 40/25/0 risk weights |
| ChildrenTable.HealthBadgeMatchesRisk | src/components/dashboard/ChildrenTable.tsx:37-46 | the health badge is destructive for poor and critical (the 25-point weight), secondary for good and fair, default for excellent |
| ChildrenTable.UnknownStatusIsSecondary | src/components/dashboard/ChildrenTable.tsx:26-46 | each switch gives the secondary badge to every string outside its own enumeration, the other column's literals (such as "good" for education, "none" for health) included |
| ChildrenTable.EducationBadgeVariant | src/components/dashboard/ChildrenTable.tsx:26-35 | definition of the education switch; see `ChildrenTable.EducationBadgeMatchesRisk` and `ChildrenTable.UnknownStatusIsSecondary` |
| ChildrenTable.HealthBadgeVariant | src/components/dashboard/ChildrenTable.tsx:37-46 | definition of the health switch; see `ChildrenTable.HealthBadgeMatchesRisk` and `ChildrenTable.UnknownStatusIsSecondary` |
| ChildrenTable.SplitFormatIsFormatFrom | src/components/dashboard/ChildrenTable.tsx:48-52 | split on `_`, capitalise each piece and join with spaces equals the character-by-character formatting |
| ChildrenTable.FormatEducationStatus | src/components/dashboard/ChildrenTable.tsx:48-52 | definition: split on `_`, capitalise each piece, join with spaces; see `ChildrenTable.FormatEducationStatusChars` |
| ChildrenTable.FormatEducationStatusChars | src/components/dashboard/ChildrenTable.tsx:48-52 | formatting keeps the length, turns every `_` into a space, upper-cases the first character and each character after `_`, and keeps the rest |
| ChildrenTable.FormatHigherSecondary | src/components/dashboard/ChildrenTable.tsx:48-52 | `higher_secondary` reads "Higher Secondary" |
| ChildrenTable.TableAndChartLabelsDiffer | src/components/dashboard/ChildrenTable.tsx:48-52 | the table's "Higher Secondary" differs from the pie chart's "Higher secondary" |
| ChildrenTable.FormatHealthStatusLabels | src/components/dashboard/ChildrenTable.tsx:54-56 | a health literal gets an upper-case first letter and keeps the rest; the empty status stays empty |
| ChildrenTable.FormatHealthStatus | src/components/dashboard/ChildrenTable.tsx:54-56 | definition: `Text.UpperFirst` of the status; see `ChildrenTable.FormatHealthStatusLabels` |
| ChildrenTable.GenderDisplayFacts | src/components/dashboard/ChildrenTable.tsx:86 | the gender column capitalises like the gender chart and shows distinct genders differently |
| ChildrenTable.GenderDisplay | src/components/dashboard/ChildrenTable.tsx:86 | definition: `Text.UpperFirst` of the literal; see `ChildrenTable.GenderDisplayFacts` |
| ChildrenTable.RegistryTitleCount | src/components/dashboard/ChildrenTable.tsx:63 | the number in the card title reads back as the number of children |

## Left out

- Data fetching is not modelled: `fetchWithTimeout`, the `Promise.race` timeout and the JSON decoding in src/pages/Dashboard.tsx. The fetched list enters the model as the argument of `SetChildren`. A failed request, or a payload that is not an array, corresponds to `SetChildren([])`. The loading and error flags and the success stories are not modelled.
- The CSV download is not modelled: `encodeURI`, the link element and the click are browser APIs. `CsvContent` gives the text before encoding.
- The random funding values are not modelled: `currentFunding` and `fundingGap` in the heat map draw on `Math.random`. `FundingColor` is modelled on an arbitrary integer gap.
- Mock content is not modelled: the funding forecast, impact tracking, CSR suggestions and success stories are fixed or random figures with no logic over the records.
- The donation form, authentication and the backend proxy are not modelled. They are thin wrappers over a hosted database client.
- Chart rendering is not modelled, nor the floating-point percentage label of the pie chart.
- Presentation-only pieces are not modelled:
  - the per-row detail line of the risk list;
  - the badge text "N% risk";
  - the view toggle of the heat map.
- Text.Lower: only ASCII letters change case. JavaScript's full Unicode case mapping is not modelled. `Text.UpperChar` has the same limit.
- Charts.CountBy: JavaScript enumerates integer-like keys (such as "12") before the other keys. The model keeps plain insertion order for every key. The same holds for `Heatmap.AccumulateDistricts`.
- Charts.CountBy: a value naming a property of `Object.prototype` is modelled as an ordinary key. In the source (src/components/dashboard/ChartsSection.tsx:23) "__proto__" gets no entry, because `Object.prototype + 1` is the string "[object Object]1", which the `__proto__` setter ignores. The bars then add up to fewer than the number of children. "toString" or "constructor" gets a string count, a function's source text followed by "1". `Charts.ChartsSection` states its totals for the model, not for such inputs.
- Charts.Accumulate: the same inputs break "a count for exactly the keys seen, equal to the number of occurrences" in the source's `reduce`, as described for `Charts.CountBy`.
- Heatmap.AccumulateDistricts: a district naming a property of `Object.prototype` (such as "__proto__", "constructor" or "toString") is modelled as an ordinary district. In the source (src/components/dashboard/GeospatialHeatmap.tsx:26-38) `!acc[district]` is false for it, so the initialisation is skipped. `acc[district].locations.add(...)` then throws a TypeError and the heat map fails. `Heatmap.ProcessHeatmapData` and the lemmas about it hold only for the model.
- Dashboard.AgeLabelsSelect: an age label naming a property of `Object.prototype` (such as "constructor") makes the source's destructuring throw. The model treats it as an unknown label with bounds [0, 100].
- Dashboard.DashboardState.HandleFilterChange: a key other than the five filter fields adds a property the filter never reads. The model leaves the record unchanged. The intermediate render between a state change and the effect that re-filters is not modelled either: each method re-filters before returning.
- Ages are integers in the model. The source's `number` could also hold a fraction, which is not modelled.
- Record fields are well-formed enumeration values. The badge functions take strings, so they do model unknown statuses.
- Heatmap.AccumulateDistricts: the four field updates of one child are applied together by `Heatmap.Fold`, not one statement at a time.
