# Wi-Fi ranging and trilateration, modelled in Dafny

This project models the positioning core of an indoor Wi-Fi localisation system in two parts.

- **Trilateration.** A `TrilaterationFunction` holds the anchors (access points at known
  positions), the measured distance to each anchor and two standard deviations per anchor.
  Construction validates the anchors and raises every distance and standard deviation to at least
  1E-7, in place. `value` returns the residual vector (squared distance from a candidate point to
  each anchor minus the squared measurement) and its Jacobian.
- **Solver set-up.** The `NonLinearLeastSquaresSolver` starts the optimizer at the centroid of
  the anchors. It uses an all-zero target and one weight per anchor, chosen by an integer
  selector: 0 is the standard-deviation weight, 1 the inverse-square law, and anything else
  their product. Both of the optimizer's caps are set to 1000. The Kotlin plugin and the Java
  test program contain the same solver, so one Dafny class models both.
- **Offline scripts.** `ReadRangingDataRTT.py` and `ReadRangingDataRSS.py` turn a tab-separated
  ranging log into the test files of two experiments.
  - Both cut the log into runs of consecutive rows with the same position and build a
    per-BSSID dictionary in each run.
  - The RTT script first drops the rows whose success flag is not `TRUE`. It keeps, per access
    point, the row with the smallest integer in field 12.
  - The RSS script keeps, per access point, the first row. It turns the signal strength into a
    distance with the log-distance path-loss model, using the exponent for one floor or for two
    floors.
  - Both write the first 19 groups to the one-floor file and the rest to the two-floor file.

Files:

- `results.dfy`: `Option` and `Result`.
- `trilateration_function.dfy`: module `Trilateration`, the residual model and the class.
- `least_squares_solver.dfy`: module `LeastSquaresSolver`, the weights, the centroid and the
  solver class.
- `ranging_records.dfy`: module `RangingRecords`, what the two scripts share. This covers log
  rows, the first-failure semantics of a script that raises, grouping by position, the per-BSSID
  dictionary, the 19/rest split, `join`/`split`, the layout of the output files and `int()`/`str()`
  on integers.
- `read_ranging_data_rtt.dfy` and `read_ranging_data_rss.dfy`: the two scripts.

How things are represented:

- Numbers are `real`.
- Python exceptions are `Failure(IndexError | ValueError | KeyError)`; the first one raised stops
  the script.
- A log row is the sequence of its tab-separated fields.
- A written file is the string the script writes into it.
- The square root, `pow(10, x)`, `str()` on a float and the optimizer cannot be given a body
  here, so they are parameters. Lemmas about them state what they assume through hypotheses:
  `IsSquareRoot` (non-negative root of every non-negative real) and `IsPowerOfTen` (one at zero,
  positive, strictly increasing).

A selector other than 0 and 1 does not fall back to the standard-deviation weight, as a reader
might expect of a default branch. The code (`NonLinearLeastSquaresSolver.kt` line 104,
`NonLinearLeastSquaresSolver.java` line 95) multiplies the two weights, and the model follows it.
`OtherSelectorIsProduct` shows the difference on a concrete input.

## Model

The Kotlin files are under `flutter-wifirtt-plugin/android/src/main/kotlin/com/omega365/wifirtt/`,
the Python scripts under `TrilaterationTest/app/src/main/` and the Java solver under
`TrilaterationTest/app/src/main/java/trilaterationtest/`.

| member | source | states |
|---|---|---|
| Trilateration.AtLeastEpsilon | flutter-wifirtt-plugin/android/src/main/kotlin/com/omega365/wifirtt/TrilaterationFunction.kt:125-127 | `coerceAtLeast(1E-7)` returns a value that is at least 1E-7 and at least the input, and is one of the two |
| Trilateration.ResidualZeroOnSphere | flutter-wifirtt-plugin/android/src/main/kotlin/com/omega365/wifirtt/TrilaterationFunction.kt:100-107 | an anchor's residual is zero exactly when the candidate point lies on the sphere around the anchor whose radius is the measured distance |
| Trilateration.SquaredDistanceStep | flutter-wifirtt-plugin/android/src/main/kotlin/com/omega365/wifirtt/TrilaterationFunction.kt:83-87 | moving coordinate j of the point by h changes the squared distance to an anchor by h times the Jacobian entry plus h^2 |
| Trilateration.ResidualFiniteDifference | flutter-wifirtt-plugin/android/src/main/kotlin/com/omega365/wifirtt/TrilaterationFunction.kt:76-110 | the Jacobian that `value` returns is the exact derivative of its residuals: residual i moves by h·J_ij + h^2 for every step h |
| Trilateration.TrilaterationFunction.Create | flutter-wifirtt-plugin/android/src/main/kotlin/com/omega365/wifirtt/TrilaterationFunction.kt:116-135 | `init`: TooFewPositions below two anchors and CountMismatch for a count mismatch, both before anything changes. Missing sigma arrays become zeros. The caller's arrays are clamped in place. A too-short sigma array raises an index error at the first index it lacks, after exactly the entries the loop reached have been clamped and no others. DimensionMismatch is raised only after clamping. Otherwise the object is valid and holds the caller's arrays |
| Trilateration.TrilaterationFunction.ClampAll | flutter-wifirtt-plugin/android/src/main/kotlin/com/omega365/wifirtt/TrilaterationFunction.kt:124-128 | the clamping loop raises distances[i], then sigmaPositions[i], then sigmaDistances[i] to at least 1E-7, leaves every later entry unchanged, and stops at the first index one of the arrays lacks |
| Trilateration.TrilaterationFunction.HaveSameDimension | flutter-wifirtt-plugin/android/src/main/kotlin/com/omega365/wifirtt/TrilaterationFunction.kt:129-132 | true exactly when every anchor has the first anchor's dimension |
| Trilateration.TrilaterationFunction.Jacobian | flutter-wifirtt-plugin/android/src/main/kotlin/com/omega365/wifirtt/TrilaterationFunction.kt:76-89 | one row per anchor and one column per coordinate of the point, entry (i, j) = 2·p_j − 2·a_ij |
| Trilateration.TrilaterationFunction.AccumulateSquares | flutter-wifirtt-plugin/android/src/main/kotlin/com/omega365/wifirtt/TrilaterationFunction.kt:101-105 | the inner loop leaves in result[i] the squared distance from the point to anchor i and changes no other cell |
| Trilateration.TrilaterationFunction.Value | flutter-wifirtt-plugin/android/src/main/kotlin/com/omega365/wifirtt/TrilaterationFunction.kt:91-110 | residual i is the squared distance to anchor i minus the squared distance i, for every anchor, returned with the Jacobian |
| LeastSquaresSolver.StdDevWeight | flutter-wifirtt-plugin/android/src/main/kotlin/com/omega365/wifirtt/NonLinearLeastSquaresSolver.kt:110-112 | the weight is the positive w with w^2·(sd^2 + sp^2) = 1 |
| LeastSquaresSolver.InverseSquareLaw | flutter-wifirtt-plugin/android/src/main/kotlin/com/omega365/wifirtt/NonLinearLeastSquaresSolver.kt:114-116 | the weight is the positive w with w·d^2 = 1 |
| LeastSquaresSolver.Weight | TrilaterationTest/app/src/main/java/trilaterationtest/NonLinearLeastSquaresSolver.java:87-96 | the switch gives a positive weight for every selector |
| LeastSquaresSolver.WeightMeaning | flutter-wifirtt-plugin/android/src/main/kotlin/com/omega365/wifirtt/NonLinearLeastSquaresSolver.kt:101-105 | selector 0 gives the standard-deviation weight, 1 the inverse-square weight, and any other the product of the two, each stated without the square root |
| LeastSquaresSolver.OtherSelectorIsProduct | TrilaterationTest/app/src/main/java/trilaterationtest/NonLinearLeastSquaresSolver.java:94-95 | the default branch is not the standard-deviation weight: for distance 2 and unit deviations it is a quarter of it |
| LeastSquaresSolver.ClampedWeightPositive | flutter-wifirtt-plugin/android/src/main/kotlin/com/omega365/wifirtt/NonLinearLeastSquaresSolver.kt:99-105 | after `init`'s clamping no weight divides by zero and every weight is positive |
| LeastSquaresSolver.CentroidWithinAnchors | flutter-wifirtt-plugin/android/src/main/kotlin/com/omega365/wifirtt/NonLinearLeastSquaresSolver.kt:76-86 | each coordinate of the starting point lies between the smallest and the largest anchor coordinate there |
| LeastSquaresSolver.Weights | flutter-wifirtt-plugin/android/src/main/kotlin/com/omega365/wifirtt/NonLinearLeastSquaresSolver.kt:98-106 | one positive weight per anchor, for every selector, once the anchor's values have been clamped |
| LeastSquaresSolver.NonLinearLeastSquaresSolver.constructor | TrilaterationTest/app/src/main/java/trilaterationtest/NonLinearLeastSquaresSolver.java:25-29 | the two-argument constructor stores the function and the optimizer, with selector 0 |
| LeastSquaresSolver.NonLinearLeastSquaresSolver.WithWeightsType | TrilaterationTest/app/src/main/java/trilaterationtest/NonLinearLeastSquaresSolver.java:31-35 | the three-argument constructor keeps the selector as given |
| LeastSquaresSolver.NonLinearLeastSquaresSolver.SolveProblem | flutter-wifirtt-plugin/android/src/main/kotlin/com/omega365/wifirtt/NonLinearLeastSquaresSolver.kt:50-70 | the optimizer receives the model with the given target, start and weights, and 1000 as both caps |
| LeastSquaresSolver.NonLinearLeastSquaresSolver.SolveProblemQuietly | TrilaterationTest/app/src/main/java/trilaterationtest/NonLinearLeastSquaresSolver.java:52-54 | the three-argument `solve` is the four-argument one without debug output |
| LeastSquaresSolver.NonLinearLeastSquaresSolver.InitialPoint | flutter-wifirtt-plugin/android/src/main/kotlin/com/omega365/wifirtt/NonLinearLeastSquaresSolver.kt:74-86 | the in-place summing and dividing loops produce the centroid of the anchors |
| LeastSquaresSolver.NonLinearLeastSquaresSolver.TargetAndWeights | flutter-wifirtt-plugin/android/src/main/kotlin/com/omega365/wifirtt/NonLinearLeastSquaresSolver.kt:94-106 | the target is all zeros and weight i is the selector's weight of anchor i's distance and standard deviations |
| LeastSquaresSolver.NonLinearLeastSquaresSolver.Solve | TrilaterationTest/app/src/main/java/trilaterationtest/NonLinearLeastSquaresSolver.java:56-100 | the optimizer receives the centroid as the start, the zero target, the per-anchor weights and both caps at 1000 |
| LeastSquaresSolver.NonLinearLeastSquaresSolver.SolveDefault | TrilaterationTest/app/src/main/java/trilaterationtest/NonLinearLeastSquaresSolver.java:109-111 | `solve()` poses the same problem as `solve(false)` |
| RangingRecords.AllSucceed | TrilaterationTest/app/src/main/ReadRangingDataRSS.py:38-43 | a run of steps that may raise completes exactly when every step does, and then yields every value in order |
| RangingRecords.AllSucceedPrefix | TrilaterationTest/app/src/main/ReadRangingDataRSS.py:38-43 | once a step has raised, the later steps do not change the outcome: the first error is the script's |
| RangingRecords.Runs | TrilaterationTest/app/src/main/ReadRangingDataRTT.py:14-17 | the grouping is empty exactly for no rows, and the last row always ends in the last group |
| RangingRecords.RunsArePartition | TrilaterationTest/app/src/main/ReadRangingDataRTT.py:14-17 | the groups put back together are the rows; each group is nonempty with one position, and neighbouring groups have different positions |
| RangingRecords.RunPartitionIsUnique | TrilaterationTest/app/src/main/ReadRangingDataRSS.py:21-24 | every cut of the rows with those three properties is the script's grouping |
| RangingRecords.Bssids | TrilaterationTest/app/src/main/ReadRangingDataRTT.py:23-24 | the dictionary keys are pairwise distinct |
| RangingRecords.IndicesWith | TrilaterationTest/app/src/main/ReadRangingDataRTT.py:22-25 | the rows of a BSSID are listed by increasing index, and every row of that BSSID is listed |
| RangingRecords.RowsWith | TrilaterationTest/app/src/main/ReadRangingDataRTT.py:25 | the list under a BSSID holds that BSSID's rows in log order |
| RangingRecords.BssidsArePresent | TrilaterationTest/app/src/main/ReadRangingDataRTT.py:23-24 | every row's BSSID is a key, and the keys are exactly the BSSIDs with at least one row |
| RangingRecords.BssidsInFirstOrder | TrilaterationTest/app/src/main/ReadRangingDataRTT.py:21-27 | the dictionary iterates its keys in the order of their first rows |
| RangingRecords.PairInFirstOrder | TrilaterationTest/app/src/main/ReadRangingDataRTT.py:21-27 | key k's first row comes before key l's first row whenever k < l |
| RangingRecords.BssidsFirstAppearance | TrilaterationTest/app/src/main/ReadRangingDataRTT.py:21-27 | the keys are the BSSIDs of the group, each once, in the order of first appearance |
| RangingRecords.DictValues | TrilaterationTest/app/src/main/ReadRangingDataRTT.py:27 | `d.values()` gives, key by key, the nonempty list of that key's rows |
| RangingRecords.ReadStep | TrilaterationTest/app/src/main/ReadRangingDataRTT.py:14-17 | one pass of the reading loop either extends the open group or opens one, and either way it keeps the grouping of the rows read so far |
| RangingRecords.GroupByBssid | TrilaterationTest/app/src/main/ReadRangingDataRTT.py:21-25 | the dictionary loop produces exactly the keys in first-appearance order and, under each, the rows of that BSSID |
| RangingRecords.SplitFloors | TrilaterationTest/app/src/main/ReadRangingDataRTT.py:31-38 | `best[:19]` and `best[19:]` put back together are `best`, and the first half has 19 groups or all of them |
| RangingRecords.PositionFields | TrilaterationTest/app/src/main/ReadRangingDataRTT.py:33 | `m[3:9]` gives exactly fields 3 to 8, or fields 3 to the end on a row of fewer than nine fields, starting with the position |
| RangingRecords.SplitJoin | TrilaterationTest/app/src/main/ReadRangingDataRTT.py:33 | splitting at a separator undoes joining with it when no part contains it |
| RangingRecords.OutputLineFields | TrilaterationTest/app/src/main/ReadRangingDataRTT.py:33 | an output line holds no line break, and split at tabs it gives fields 3 to 8 and the written value |
| RangingRecords.ReadFileLayout | TrilaterationTest/app/src/main/ReadRangingDataRTT.py:30-35 | a file split at its line breaks gives each group's lines and an empty line, then the closing empty line |
| RangingRecords.ParseIntText | TrilaterationTest/app/src/main/ReadRangingDataRTT.py:28 | `int()` reads back every integer `str()` writes |
| ReadRangingDataRtt.KeptRowsAreSucceeded | TrilaterationTest/app/src/main/ReadRangingDataRTT.py:12-13 | a row is kept exactly when it is in the log with the flag three fields from the end reading `TRUE` |
| ReadRangingDataRtt.KeptRowsAppend | TrilaterationTest/app/src/main/ReadRangingDataRTT.py:10-13 | filtering two stretches of the log one after the other is filtering the whole |
| ReadRangingDataRtt.GroupingIsRunPartition | TrilaterationTest/app/src/main/ReadRangingDataRTT.py:7-17 | a successful read cuts the kept rows into maximal runs of equal position |
| ReadRangingDataRtt.KeptRowFails | TrilaterationTest/app/src/main/ReadRangingDataRTT.py:14-17 | a kept row that cannot be grouped makes the whole read raise IndexError, whatever follows |
| ReadRangingDataRtt.MissingPositionFails | TrilaterationTest/app/src/main/ReadRangingDataRTT.py:14 | a kept row without field 3 raises IndexError |
| ReadRangingDataRtt.EmptyFirstPositionFails | TrilaterationTest/app/src/main/ReadRangingDataRTT.py:14-17 | a first kept row whose position is empty reaches `measurements[-1]` with no group and raises IndexError |
| ReadRangingDataRtt.ReadMeasurements | TrilaterationTest/app/src/main/ReadRangingDataRTT.py:7-17 | the reading loop returns the grouping of the kept rows, or IndexError for a row without three fields, a kept row without a position, or an empty first position |
| ReadRangingDataRtt.FirstMinimum | TrilaterationTest/app/src/main/ReadRangingDataRTT.py:28 | `min` picks an index whose key is no larger than any other and strictly smaller than every earlier one |
| ReadRangingDataRtt.ChooseInGroup | TrilaterationTest/app/src/main/ReadRangingDataRTT.py:21-28 | one group's selection loop gives the minimum of every dictionary list in key order, or the first error |
| ReadRangingDataRtt.ChooseBest | TrilaterationTest/app/src/main/ReadRangingDataRTT.py:19-28 | the selection loop over all groups, stopping at the first error |
| ReadRangingDataRtt.MinByRangeIsEarliestMinimum | TrilaterationTest/app/src/main/ReadRangingDataRTT.py:28 | the row `min` picks for a BSSID has the smallest `int(s[12])` among that BSSID's rows, and every earlier row of it has a strictly larger one |
| ReadRangingDataRtt.ChosenAreEarliestMinima | TrilaterationTest/app/src/main/ReadRangingDataRTT.py:19-28 | each group yields one row per distinct BSSID, in first-appearance order, each the earliest minimum of its BSSID |
| ReadRangingDataRtt.MinByRangeSucceeds | TrilaterationTest/app/src/main/ReadRangingDataRTT.py:28 | `min` returns exactly when every key of the list can be read |
| ReadRangingDataRtt.ChoiceFailureHasUnreadableKey | TrilaterationTest/app/src/main/ReadRangingDataRTT.py:28 | a failed selection has a row whose key cannot be read |
| ReadRangingDataRtt.UnreadableKeyFailsChoice | TrilaterationTest/app/src/main/ReadRangingDataRTT.py:28 | a row whose key cannot be read makes the selection fail |
| ReadRangingDataRtt.ChooseFailsOnUnreadableKey | TrilaterationTest/app/src/main/ReadRangingDataRTT.py:21-28 | selecting in a group fails exactly when some row of the group lacks a readable field 12 |
| ReadRangingDataRtt.ChooseAllSucceeds | TrilaterationTest/app/src/main/ReadRangingDataRTT.py:19-28 | the selection over all groups succeeds exactly when every row of every group has a readable key |
| ReadRangingDataRtt.WriteGroup | TrilaterationTest/app/src/main/ReadRangingDataRTT.py:32-33 | the inner writing loop writes each line of the group followed by a line break |
| ReadRangingDataRtt.WriteFile | TrilaterationTest/app/src/main/ReadRangingDataRTT.py:30-35 | the file holds every group's lines and an empty line after each, then one more empty line |
| ReadRangingDataRtt.FileReadsBack | TrilaterationTest/app/src/main/ReadRangingDataRTT.py:30-35 | read back, the file gives each group's lines and separators, and each line gives fields 3 to 8 and field 10 of its row |
| ReadRangingDataRtt.ChosenAreWritable | TrilaterationTest/app/src/main/ReadRangingDataRTT.py:28-33 | a chosen row has field 12, so `m[10]` in the output never raises |
| ReadRangingDataRtt.Run | TrilaterationTest/app/src/main/ReadRangingDataRTT.py:7-42 | the script yields the two files' texts, or the first error raised |
| ReadRangingDataRtt.PrepareSucceeds | TrilaterationTest/app/src/main/ReadRangingDataRTT.py:7-42 | the script completes exactly when the log can be grouped and every kept row has an integer in field 12 |
| ReadRangingDataRss.Lookup | TrilaterationTest/app/src/main/ReadRangingDataRSS.py:7-14 | `accessPoints[m[2]]` succeeds exactly for the six BSSIDs of the table, each calibrated (negative reference strength, positive exponents, two-floor exponent above one-floor), and raises KeyError otherwise |
| ReadRangingDataRss.DistanceExponent | TrilaterationTest/app/src/main/ReadRangingDataRSS.py:41 | the exponent times 10·n is the loss against the reference, positive exactly for a weaker signal and zero exactly at the reference |
| ReadRangingDataRss.DistanceAtOneMetre | TrilaterationTest/app/src/main/ReadRangingDataRSS.py:41 | at the reference strength the estimate is 1000 mm |
| ReadRangingDataRss.WeakerSignalIsFarther | TrilaterationTest/app/src/main/ReadRangingDataRSS.py:41 | a weaker signal gives a strictly larger distance |
| ReadRangingDataRss.TwoFloorsEstimateIsNearer | TrilaterationTest/app/src/main/ReadRangingDataRSS.py:50 | below the reference strength, the two-floor exponent gives a strictly shorter distance than the one-floor exponent |
| ReadRangingDataRss.GroupingIsRunPartition | TrilaterationTest/app/src/main/ReadRangingDataRSS.py:16-24 | a successful read cuts all rows into maximal runs of equal position |
| ReadRangingDataRss.ReadMeasurements | TrilaterationTest/app/src/main/ReadRangingDataRSS.py:16-24 | the reading loop returns that grouping, or IndexError for a row without a position or an empty first position |
| ReadRangingDataRss.ReadRow | TrilaterationTest/app/src/main/ReadRangingDataRSS.py:21-24 | reading row i extends the grouping of rows 0..i-1 to that of rows 0..i |
| ReadRangingDataRss.ShortRowFails | TrilaterationTest/app/src/main/ReadRangingDataRSS.py:21 | a row without field 3 raises IndexError |
| ReadRangingDataRss.EmptyFirstPositionFails | TrilaterationTest/app/src/main/ReadRangingDataRSS.py:21-24 | an empty first position raises IndexError at `measurements[-1]` |
| ReadRangingDataRss.FirstRows | TrilaterationTest/app/src/main/ReadRangingDataRSS.py:28-35 | `m[0]` of the dictionary lists gives one row per access point of the group: the k-th carries the k-th BSSID in order of first appearance, and no earlier row of the group carries that BSSID |
| ReadRangingDataRss.ListHeadIsFirstSeen | TrilaterationTest/app/src/main/ReadRangingDataRSS.py:28-35 | the head of the k-th dictionary list is the group's first row with the k-th BSSID |
| ReadRangingDataRss.ListHeadsAreFirstSeen | TrilaterationTest/app/src/main/ReadRangingDataRSS.py:28-35 | every dictionary list is nonempty, and its head carries the list's key and is the first row of the group with that key |
| ReadRangingDataRss.FirstOfLists | TrilaterationTest/app/src/main/ReadRangingDataRSS.py:34-35 | the loop over `d.values()` takes the first row of each list in key order |
| ReadRangingDataRss.FirstOfEach | TrilaterationTest/app/src/main/ReadRangingDataRSS.py:28-35 | one group's selection gives the first row seen of each access point |
| ReadRangingDataRss.ChooseAll | TrilaterationTest/app/src/main/ReadRangingDataRSS.py:26-35 | one list per group, holding for every access point of that group its first row, in order of first appearance |
| ReadRangingDataRss.ChooseBest | TrilaterationTest/app/src/main/ReadRangingDataRSS.py:26-35 | the selection loop over all groups gives the kept rows of each |
| ReadRangingDataRss.RssLine | TrilaterationTest/app/src/main/ReadRangingDataRSS.py:40-42 | a line is produced exactly for a known BSSID with an integer strength. An unknown BSSID raises KeyError even when the strength is unreadable too; a known BSSID with an unreadable strength raises ValueError |
| ReadRangingDataRss.WriteGroup | TrilaterationTest/app/src/main/ReadRangingDataRSS.py:39-43 | the inner writing loop gives the group's lines, or the first row's error |
| ReadRangingDataRss.WriteFile | TrilaterationTest/app/src/main/ReadRangingDataRSS.py:37-44 | the file loop gives the file's text, or the first row's error |
| ReadRangingDataRss.UnreadableFileText | TrilaterationTest/app/src/main/ReadRangingDataRSS.py:40-41 | any unreadable kept row stops the writing of its file |
| ReadRangingDataRss.ReadableFileText | TrilaterationTest/app/src/main/ReadRangingDataRSS.py:37-44 | when every kept row is readable the file holds exactly the expected lines and separators |
| ReadRangingDataRss.FileTextSucceeds | TrilaterationTest/app/src/main/ReadRangingDataRSS.py:37-44 | a file is written exactly when every kept row is readable, and then holds the expected lines |
| ReadRangingDataRss.FileReadsBack | TrilaterationTest/app/src/main/ReadRangingDataRSS.py:37-44 | read back, a written file gives each group's lines and separators, and each line gives fields 3 to 8 and the written distance |
| ReadRangingDataRss.SplitFloorsReadable | TrilaterationTest/app/src/main/ReadRangingDataRSS.py:38-47 | the kept rows are readable exactly when those of both experiments are |
| ReadRangingDataRss.Run | TrilaterationTest/app/src/main/ReadRangingDataRSS.py:16-53 | the script yields both files' texts, or the first error raised |
| ReadRangingDataRss.PrepareSucceeds | TrilaterationTest/app/src/main/ReadRangingDataRSS.py:16-53 | the script completes exactly when the log can be grouped and every kept row has a known access point and a readable strength |

## Left out

- IEEE 754 doubles: every number is a `real`. Rounding, overflow, NaN and infinities are not
  modelled, nor is the `OverflowError` of `pow` on a huge exponent.
- `Math.sqrt`, `pow(10, x)`, `str()` of a float and the Levenberg–Marquardt optimizer are
  parameters. The optimizer's result is whatever the parameter returns; only the problem handed
  to it is specified.
- Trilateration.TrilaterationFunction.Create: the three caller arrays must be distinct objects.
  The source does not check this; aliasing between them is not modelled.
- Trilateration.TrilaterationFunction.Value and Jacobian: the point may not be longer than the
  anchors. The source would raise an index exception there; the optimizer never passes such a point.
- LeastSquaresSolver.StdDevWeight and InverseSquareLaw: a zero denominator is excluded by the
  requires. With doubles it would give infinity; after `init`'s clamping it cannot occur, and
  `ClampedWeightPositive` proves that.
- Debug printing in `solve`, file opening and closing, the resource path helper, and reading
  and stripping the log lines. The scripts' input is the sequence of rows, each already split
  at tabs. Their output is the text of each file.
- Files left behind when the RSS script raises. A one-floor row that raises (KeyError at line 40,
  ValueError at line 41) leaves a partial one-floor file and no two-floor file. A two-floor row
  that raises leaves a complete one-floor file and a partial two-floor file. In both cases the
  model returns only the error and no text.
- The optimizer parameter is a function of the problem value. The problem holds the
  `TrilaterationFunction` by reference, so the modelled optimizer cannot depend on the distances
  and standard deviations stored in its arrays, as the real optimizer does through `value`. No
  property here depends on what the optimizer returns.
- `int()` accepts an optional sign and ASCII decimal digits only. Surrounding whitespace,
  underscores and non-ASCII digits are not modelled.
- `WifirttPlugin.kt`, `App.java` and `AccessPointsExtension.js` are not part of this model.
