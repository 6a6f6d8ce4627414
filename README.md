# LJ35A takeoff-performance lookup, modelled in Dafny

The electronic flight bag page in `efb.js` estimates the decision speed V1 and the
takeoff distance of a Learjet 35A. It looks them up in two flattened performance
tables: F8-TO for speed and F8-DIS for distance. Each row carries an `Elevation`,
a gross weight `GW`, an outside-air temperature `OAT`, and either `V1` or
`Distance`. The lookup is `trilinearInterpolation` (efb.js:93-130). The click
handler calls it once on each table with the same query. The only other rule
with content is the gross-weight limit check in `updateGW`.

The model keeps the lookup exactly as written:

- **Sort in place.** The caller's array is sorted in place by (Elevation, GW,
  OAT) with a stable comparator sort. This is the method `SortByKey`, an
  insertion sort on an `array<Point>`.
- **Find the six bounds in one pass.** One loop sets each of the six bounds to
  the key of the *last* row in sorted order that satisfies its comparison. This
  is the method `FindBounds`. The functions `LastAtMost` and `LastAtLeast`
  specify it.
- **Pick and blend.** The lookup takes the first row carrying the lower triple
  and the first carrying the upper triple, reads `V1 || Distance` from each, and
  blends on elevation with the unnormalised factor
  `targetElevation - lowerElevation`. These are the functions `FirstMatch`,
  `ValueOf`, `Blend` and `Estimate`.

Stability is stated as `SameSelections`: every `filter` the lookup can apply
selects the same rows, in the same order, from the array before and after the
sort. `StableSortUnique` proves that a sorted sequence with this property is
unique. So the insertion sort gives exactly what any stable engine sort gives.
It also follows that sorting an already sorted table changes nothing, which
makes a repeated query idempotent.

Modules:

- `Wrappers` (wrappers.dfy) holds `Option`.
- `PerformanceTable` (performance_table.dfy) holds rows, the comparator, the
  order, the filter, and the stable-reordering facts.
- `Interpolation` (interpolation.dfy) holds the lookup.
- `GrossWeight` (gross_weight.dfy) holds the `updateGW` rule.

## Where the model follows the code rather than the written design

- The design says the table is never mutated by a query. `efb.js:95` sorts the
  caller's array in place, and the filter at `efb.js:115-120` runs on that sorted
  array. The model does the same (`SortByKey` has `modifies data`). Its
  postconditions say what the mutation keeps intact:
  - it is a stable permutation;
  - on an already sorted array it is the identity.
- The design defines `upperElevation` as the least elevation at or above the
  target. The loop actually yields the greatest elevation of the whole table,
  whenever that is at or above the target. `UpperElevationIsTableMaximum` proves
  this, and `UpperElevationSkipsNearestExample` shows an instance.
- The design promises that a query naming a stored row returns that row's value.
  The per-axis GW and OAT bounds come from whichever rows come last in sorted
  order. So the lower triple can name no row, and the result is `null`.
  `StoredRowQueryCanMissExample` gives such a table. When a result does exist at
  a stored elevation, it is the lower row's value (`StoredElevationGivesLowerValue`).
- The design's worked example (two rows at elevations 0 and 1000, query at 500)
  gives 101000. `UnnormalisedBlendExample` proves that value.

## Model

| member | source | states |
|---|---|---|
| `PerformanceTable.Compare` | efb.js:95 | the comparator is 0 exactly for equal (Elevation, GW, OAT) triples and non-positive exactly when the first row may precede the second in lexicographic order |
| `PerformanceTable.Filter` | efb.js:115-120 | `filter` keeps only rows of the array that carry exactly the bound triple (a `null` bound matches nothing), keeps every such row, and is never longer than the array |
| `PerformanceTable.FilterHeadIsFirst` | efb.js:115-123 | the head of the filtered list is the first matching row of the array: no earlier row matches |
| `PerformanceTable.SwapKeepsSelections` | efb.js:95 | exchanging two neighbouring rows with different triples leaves every filter result unchanged (the step that keeps the sort stable) |
| `PerformanceTable.SameSelectionsPermutes` | efb.js:95 | a stable reordering holds the same multiset of rows |
| `PerformanceTable.StableSortUnique` | efb.js:95 | two sorted stable reorderings of the same rows are equal, so every stable sort yields the same array and sorting sorted data is the identity |
| `Interpolation.LastAtMost` | efb.js:104 | a lower bound is defined exactly when some row's coordinate is at most the target, and it is then at most the target |
| `Interpolation.LastAtLeast` | efb.js:105 | an upper bound is defined exactly when some row's coordinate is at least the target, and it is then at least the target |
| `Interpolation.LastAtMostIsLast` | efb.js:102-112 | a lower bound is the coordinate of a row after which no row is at most the target: the last satisfying row wins |
| `Interpolation.LastAtLeastIsLast` | efb.js:102-112 | an upper bound is the coordinate of a row after which no row is at least the target |
| `Interpolation.LowerElevationIsGreatestAtMost` | efb.js:95-104 | on the sorted table `lowerElevation` is the greatest elevation at or below the target, and `null` when every elevation is above it |
| `Interpolation.UpperElevationIsTableMaximum` | efb.js:95-105 | on the sorted table `upperElevation` is at least every elevation of the table (the table maximum, not the nearest one above), and `null` when every elevation is below the target |
| `Interpolation.FirstMatch` | efb.js:115-123 | `filter(...)[0]` is absent exactly when no row matches; otherwise it is a matching row of the array with no matching row before it |
| `Interpolation.ValueOf` | efb.js:122-123 | `V1` is taken when it is defined and non-zero; otherwise `Distance` is taken, so a `V1` of 0 falls through; a missing row gives `undefined` |
| `Interpolation.Blend` | efb.js:126 | the blend equals the lower value exactly when the raw elevation factor is zero or both values agree (there is no division) |
| `Interpolation.Estimate` | efb.js:115-129 | a result exists exactly when both first matches exist and yield values; it then needs all six bounds defined; at a target equal to `lowerElevation` it is the lower value |
| `Interpolation.BlendOfMatchedRows` | efb.js:125-127 | with both rows and values present, the result is `lowerValue + (upperValue - lowerValue) * (targetElevation - lowerRow.Elevation)` |
| `Interpolation.OutOfCoverageGivesNone` | efb.js:97-129 | when every row lies strictly above, or every row strictly below, the target on some axis, the result is `null` (an empty table included) |
| `Interpolation.MissingMatchGivesNone` | efb.js:115-129 | when no row carries the lower triple, or none carries the upper triple, the result is `null` |
| `Interpolation.StoredElevationGivesLowerValue` | efb.js:102-127 | on a sorted table, querying an elevation the table holds makes any result exactly the lower row's value |
| `Interpolation.FirstMatchKeepsOriginalOrder` | efb.js:95-120 | among duplicate triples, the row used after the stable sort is the first in the caller's original order |
| `Interpolation.EstimateDeterminedByTable` | efb.js:93-130 | all sorted stable reorderings of a table are the same array, so the estimate depends only on the caller's table |
| `Interpolation.UnnormalisedBlendExample` | efb.js:126 | rows (0, 100, 15, 1000 ft) and (1000, 100, 15, 1200 ft), queried at elevation 500, give 101000 |
| `Interpolation.UpperElevationSkipsNearestExample` | efb.js:104-105 | with elevations 0, 1000 and 2000 and a query at 500, the bounds are 0 and 2000 |
| `Interpolation.StoredRowQueryCanMissExample` | efb.js:107-129 | querying exactly a stored row can produce a lower triple that names no row, and then `null` |
| `Interpolation.SortByKey` | efb.js:95 | afterwards the array is sorted by (Elevation, GW, OAT), it is a permutation of the old contents, and rows with equal triples keep their relative order |
| `Interpolation.FindBounds` | efb.js:97-112 | the six variables after the loop are the last-satisfying-row bounds of the sorted array |
| `Interpolation.TrilinearInterpolation` | efb.js:93-130 | leaves the caller's array as a sorted stable permutation of its old contents (unchanged if already sorted) and returns `Estimate` of the sorted rows |
| `Interpolation.QueryTwice` | efb.js:93-130 | a second identical query on the array the first one sorted returns the same result |
| `GrossWeight.UpdateGW` | efb.js:29-45 | GW is ZFW + FOB; calculation is enabled exactly when 0 <= GW <= 18300; above 18300 the status is over MTOW and below 0 it is below minimum |
| `GrossWeight.SliderRangesOnlyExceedMTOW` | efb.js:12-17 | within the slider ranges GW is never below the minimum, is at most 24540 lb, and calculation is enabled exactly when GW <= 18300 |

## Left out

- DOM access, event listeners, slider and input syncing, and result formatting
  (efb.js:3-9, 49-90, 132-158) are user-interface glue. This includes the
  `v1 ? … : "N/A"` test and `Math.round`. The query is a parameter of the model.
- Loading the tables with `fetch` and parsing JSON (efb.js:20-26) is
  asynchronous I/O. The N1, VR and V2 tables are loaded but never queried.
- `parseFloat`, `parseInt`, `toFixed`, NaN and IEEE-754 doubles are left out.
  Table keys, values and queries are unbounded integers. ZFW and FOB are reals.
  So the `|| 0` fallback for unparsable input and NaN comparisons are not modelled.
- A JSON `null` in a row's `V1` or `Distance` is not modelled. A field is either
  a number or absent (`undefined`).
- The engine's own sort algorithm (TimSort in V8) is not modelled. An insertion
  sort stands in for it. By `StableSortUnique`, every stable sort with this
  comparator gives the same array, so nothing observable differs.
- `console.log` and `console.error` are side output only.
- `UpdateGW`: the warning strings and the `display` style of the warning element
  are not modelled. Only the status (enabled, over MTOW, below minimum) and the
  GW value are.
