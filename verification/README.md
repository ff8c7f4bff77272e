# Advent of Code 2021, days 1, 3 and 5, in Dafny

This project models three puzzle solutions written in Kotlin and proves what
they compute.

- **Sonar sweep** (`src/Day01.kt`). It counts the depth measurements that are
  larger than the one before. Part 2 does the same over the sums of a sliding
  window of three measurements.
- **Binary diagnostic** (`src/Day03.kt`). The report is a list of equal-width
  bit rows.
  - Part 1 transposes the rows and takes each column's most common bit (the
    gamma rate) and least common bit (the epsilon rate). The answer is their
    product.
  - Part 2 filters the rows column by column, keeping the rows that carry the
    column's most common bit (oxygen generator, 1 on a tie) or least common bit
    (CO2 scrubber, 0 on a tie). The answer is the product of the binary values
    of the two surviving rows.
- **Hydrothermal venture** (`src/Day05.kt`). Each input line holds a vent
  segment `x1,y1 -> x2,y2`.
  - Each segment is expanded into the grid points it covers: a unit step per
    axis, `max(|dx|, |dy|) + 1` points.
  - All points are counted in a frequency map, and the answer is the number
    of points covered more than once.
  - Part 1 keeps only the horizontal and vertical segments.

Modules and files:

| file | module | models |
|---|---|---|
| `outcomes.dfy` | `Outcomes` | the JVM exceptions the code can throw, as `Result` errors |
| `sonar_sweep.dfy` | `SonarSweep` | `src/Day01.kt` |
| `binary_diagnostic.dfy` | `BinaryDiagnostic` | `src/Day03.kt` |
| `vents.dfy` | `Vents` | the `Point` and `Line` data classes (`src/Day05.kt:116-117`), `pointsCovered`, `findNumberOfOverlappingPoints` |
| `vent_input.dfy` | `VentInput` | `toLines` and its regular expression |
| `hydrothermal_venture.dfy` | `HydrothermalVenture` | the two Day 5 parts |
| `vents_example.dfy` | `VentsExample` | the documented Day 5 input and its two answers |

Code that updates variables step by step is modelled as methods with loops:
- the Day 1 counting loops and the sliding-window loop with its `w1`/`w2`/`w3` indices;
- the Day 3 `transpose` and the `part2` filtering loops;
- the Day 5 `pointsCovered` walk and the frequency-map fold.

Each method is proved against a specification function. The properties of
that function are proved as lemmas.

Behaviour of the Kotlin library that the model spells out:
- `groupingBy { it }.eachCount()` keeps keys in first-seen order. `maxByOrNull`
  and `minByOrNull` keep the first extreme they meet. So in part 1, a column
  with as many 0s as 1s yields its first bit for both gamma and epsilon.
- `maxOf` on an empty report throws `NoSuchElementException`.
- `Integer.parseInt("", 2)` on zero-width rows throws `NumberFormatException`.
- In `getMostCommonBit`, an empty column reaches `first { }` and throws
  `NoSuchElementException`. The model shows that filtering never empties the
  list, so this cannot happen on a nonempty report.
- The regular expression is matched with `find`: the leftmost position where
  the whole pattern matches. Each `\d+` and `\s+` takes its longest run. For
  this pattern, giving characters back never helps. `\d` is an ASCII digit and
  `\s` is one of space, tab, line feed, vertical tab, form feed and carriage
  return.

## Model

| member | source | states |
|---|---|---|
| `SonarSweep.IncreaseCount` | src/Day01.kt:132-146 | the number of increases is at most one less than the number of measurements, and 0 for fewer than two |
| `SonarSweep.IncreaseCountIsPositionCount` | src/Day01.kt:132-146 | the count equals the number of indices s in 1..n-1 with `input[s] > input[s-1]` |
| `SonarSweep.NotLargerAddsNothing` | src/Day01.kt:141-145 | a measurement equal to or below the previous one adds nothing (the "decreased" branch) |
| `SonarSweep.LargerAddsOne` | src/Day01.kt:141-143 | a measurement above the previous one adds exactly one |
| `SonarSweep.PrefixStep` | src/Day01.kt:132-146 | one loop iteration at index k adds one exactly when `input[k] > input[k-1]` |
| `SonarSweep.SolveSonarSweepPart1` | src/Day01.kt:128-151 | the loop, with `continue` at index 0, returns the increase count of the measurements |
| `SonarSweep.GetOrNull` | src/Day01.kt:163-165 | `getOrNull` yields a value exactly for an index inside the list, and then the element at that index |
| `SonarSweep.WindowSums` | src/Day01.kt:158-174 | reference definition of the window sums: one per start position with two more measurements after it, so n-2 sums and none for fewer than three measurements |
| `SonarSweep.SlidingWindowSums` | src/Day01.kt:158-174 | the window loop yields n-2 sums (none for fewer than three measurements), the k-th being `input[k] + input[k+1] + input[k+2]`; the `getOrNull` break never fires early |
| `SonarSweep.SolveSonarSweepPart2` | src/Day01.kt:153-197 | the three-branch counting loop over the window sums returns the increase count of the sums |
| `SonarSweep.WindowIncreaseIsSkipComparison` | src/Day01.kt:162-193 | window k grows over window k-1 exactly when `input[k+2] > input[k-1]` |
| `SonarSweep.ExampleAnswers` | src/Day01.kt:19-115 | the documented ten depths give 7 increases and 5 window increases |
| `SonarSweep.ExampleWindows` | src/Day01.kt:73-93 | the documented window sums are 607, 618, 618, 617, 647, 716, 769 and 792 |
| `BinaryDiagnostic.MaxRowLength` | src/Day03.kt:63-65 | `maxOf { it.size }`: no row is longer and some row has that length |
| `BinaryDiagnostic.InsertAt` | src/Day03.kt:71 | `add(index, element)` puts the element at `index`, keeps the elements before it and shifts the rest up by one |
| `BinaryDiagnostic.Transpose` | src/Day03.kt:62-76 | an empty report fails with `NoSuchElement`; otherwise the result has one column per row position, each column as long as the report, and `result[c][r] == m[r][c]` |
| `BinaryDiagnostic.Count` | src/Day03.kt:109-110 | `eachCount()[b]`, an absent key read as 0: never more than the column length, and positive exactly when b occurs |
| `BinaryDiagnostic.CountsPartition` | src/Day03.kt:93-94 | in a bit column the 0s and the 1s add up to the column length |
| `BinaryDiagnostic.MostFrequent` | src/Day03.kt:93 | the chosen bit occurs, no bit occurs more often, and on a tie it is the first-seen bit |
| `BinaryDiagnostic.LeastFrequent` | src/Day03.kt:94 | the chosen bit occurs, no occurring bit occurs less often, and on a tie it is the first-seen bit |
| `BinaryDiagnostic.LeastIsComplementOfMost` | src/Day03.kt:96-97 | when both bits occur and are not tied, the epsilon bit is `1 - gamma` bit |
| `BinaryDiagnostic.SameBitWhenTiedOrUniform` | src/Day03.kt:93-97 | on a tie, or when only one bit occurs, gamma and epsilon take the same bit, so the complement comment does not hold there |
| `BinaryDiagnostic.BitsValue` | src/Day03.kt:78 | the value of w bits is below 2^w |
| `BinaryDiagnostic.BitsValueIsPositional` | src/Day03.kt:78 | the value is the sum of `b[i] * 2^(len-1-i)`, the most significant bit first |
| `BinaryDiagnostic.FromBitsToInt` | src/Day03.kt:78 | no bits fail with `NumberFormat`; otherwise the big-endian value, below 2^len |
| `BinaryDiagnostic.GammaBits` | src/Day03.kt:93 | one bit per column, each 0 or 1 |
| `BinaryDiagnostic.EpsilonBits` | src/Day03.kt:94 | one bit per column, each 0 or 1 |
| `BinaryDiagnostic.PowerConsumption` | src/Day03.kt:85-106 | an empty report fails with `NoSuchElement`, zero-width rows with `NumberFormat`; otherwise the gamma value times the epsilon value |
| `BinaryDiagnostic.GetMostCommonBit` | src/Day03.kt:108-117 | an empty column fails; a tie gives `defaultBit`; otherwise the strictly more common bit (`ByMaxCount`, the `maxByOrNull` lambda of line 125) or the strictly less common or only bit (`ByMinCount`, the `minByOrNull` lambda of line 135); the result always occurs in the column |
| `BinaryDiagnostic.Column` | src/Day03.kt:124 | `filteredList.map { it[i] }`: one entry per row, in row order, entry r being bit i of row r |
| `BinaryDiagnostic.KeepMatching` | src/Day03.kt:126 | `filter { it[i] == b }` keeps exactly as many rows as the column has bits b, all with bit i equal to b, in their order |
| `BinaryDiagnostic.SubsequenceIsTransitive` | src/Day03.kt:121-128 | filtering a filtered list keeps an order-preserving sublist of the original |
| `BinaryDiagnostic.SubsequenceElements` | src/Day03.kt:121-128 | every row of a sublist is a row of the list |
| `BinaryDiagnostic.SiftStep` | src/Day03.kt:124-126 | one filtering pass keeps rows of the same width, in order, all agreeing on bit i, and never empties a nonempty list |
| `BinaryDiagnostic.Sift` | src/Day03.kt:121-127 | reference definition of the `part2` loop from column i on: one filtering pass per column, stopping at the first failure |
| `BinaryDiagnostic.SiftedRating` | src/Day03.kt:121-128 | reference definition of a rating: the first row left after filtering every column; an empty report fails with `NoSuchElement` |
| `BinaryDiagnostic.AgreeBeforeOneMore` | src/Day03.kt:124-126 | rows agreeing on the columns before i, filtered to those sharing bit i, agree on the columns before i + 1 |
| `BinaryDiagnostic.SiftStepKeepsLoopFacts` | src/Day03.kt:123-127 | one pass of the loop keeps a nonempty ordered sublist of the report, of full-width rows agreeing on the columns filtered so far, and leaves the final result unchanged |
| `BinaryDiagnostic.SiftKeepsARow` | src/Day03.kt:121-128 | the filtering from column i on leaves at least one row, an ordered sublist of the input, whose rows all agree from column i on |
| `BinaryDiagnostic.SingleRowIsKept` | src/Day03.kt:121-128 | a one-row report is never filtered |
| `BinaryDiagnostic.SurvivorsAreOneRow` | src/Day03.kt:121-128 | on a nonempty report all surviving rows are the same bit string, which is a row of the report |
| `BinaryDiagnostic.Rating` | src/Day03.kt:121-138 | the filtering loop equals `SiftedRating`, and after column i the rows left agree on columns 0..i; an empty report fails with `NoSuchElement`, otherwise it yields a full-width row of the report |
| `BinaryDiagnostic.LifeSupportRating` | src/Day03.kt:119-145 | O2 filtering by max with tie default 1, CO2 by min with tie default 0; errors as in part 1; otherwise the product of the two ratings' values |
| `BinaryDiagnostic.ExampleRateValues` | src/Day03.kt:45-47 | the documented gamma bits 10110 read as 22 and epsilon bits 01001 read as 9 |
| `BinaryDiagnostic.UntiedColumnBits` | src/Day03.kt:93-94 | a column in which both bits occur, with more 1s than 0s, has gamma bit 1 and epsilon bit 0; with more 0s than 1s, gamma bit 0 and epsilon bit 1 |
| `BinaryDiagnostic.ExampleTransposed` | src/Day03.kt:14-36 | the five columns of the documented report |
| `BinaryDiagnostic.ExampleColumn0Bits` | src/Day03.kt:39 | the first column has seven 1s and five 0s, so gamma bit 1 and epsilon bit 0 |
| `BinaryDiagnostic.ExampleColumn1Bits` | src/Day03.kt:41 | the second column's gamma bit is 0 and its epsilon bit is 1 |
| `BinaryDiagnostic.ExampleColumn2Bits` | src/Day03.kt:43 | the third column's gamma bit is 1 and its epsilon bit is 0 |
| `BinaryDiagnostic.ExampleColumn3Bits` | src/Day03.kt:43 | the fourth column's gamma bit is 1 and its epsilon bit is 0 |
| `BinaryDiagnostic.ExampleColumn4Bits` | src/Day03.kt:43 | the fifth column's gamma bit is 0 and its epsilon bit is 1 |
| `BinaryDiagnostic.ExampleRateBit` | src/Day03.kt:39-43 | bit c of the documented gamma and epsilon rates is the most and least common bit of column c |
| `BinaryDiagnostic.ExampleGamma` | src/Day03.kt:39-45 | the documented gamma bits are 10110 |
| `BinaryDiagnostic.ExampleEpsilon` | src/Day03.kt:47 | the documented epsilon bits are 01001 |
| `BinaryDiagnostic.ExampleRates` | src/Day03.kt:45-47 | the documented gamma rate is 22 and the epsilon rate 9 |
| `BinaryDiagnostic.ExamplePowerConsumption` | src/Day03.kt:47 | `part1` on the documented report returns 198 |
| `Vents.DirectionOfCover` | src/Day05.kt:156-162 | the step is -1, 0 or 1, it is 0 exactly when start equals end, and `|end - start|` steps from start reach end |
| `Vents.XDir` | src/Day05.kt:122 | `xDir` is -1, 0 or 1, it is 0 exactly when the line keeps x, and `|dx|` steps of it lead from the start's x to the end's x |
| `Vents.YDir` | src/Day05.kt:123 | `yDir` is -1, 0 or 1, it is 0 exactly when the line keeps y, and `|dy|` steps of it lead from the start's y to the end's y |
| `Vents.Cover` | src/Day05.kt:127-132 | the point count exceeds both extents and is one more than the larger of them |
| `Vents.CoveredPoints` | src/Day05.kt:134-143 | reference definition: point k of the walk is `start + k * (xDir, yDir)`, for k below `cover` |
| `Vents.PointsCovered` | src/Day05.kt:119-145 | the `repeat(cover)` walk lists exactly the specified points in order |
| `Vents.CoveredPointsShape` | src/Day05.kt:134-143 | `max(|dx|, |dy|) + 1` points, the first is `start`, and each differs from the previous by `(xDir, yDir)` |
| `Vents.LastPointIsEnd` | src/Day05.kt:77-80 | the last point is `end` exactly when the line is horizontal, vertical or at 45 degrees |
| `Vents.CoveredPointsDistinct` | src/Day05.kt:139-143 | no point is listed twice for one line |
| `Vents.CoveredPointsAxes` | src/Day05.kt:166-168 | vertical lines keep x, horizontal lines keep y, and the k-th point of a diagonal is k away from the start on both axes |
| `Vents.IsVertical` | src/Day05.kt:166 | a line is vertical exactly when its walk never moves along x |
| `Vents.IsHorizontal` | src/Day05.kt:168 | a line is horizontal exactly when its walk never moves along y |
| `Vents.ReversedLine` | src/Day05.kt:147-155 | a straight line read from its other end covers the same points in reverse order |
| `Vents.DocumentedLines` | src/Day05.kt:33-80 | 1,1 -> 1,3 and 9,7 -> 7,7 cover the documented points, and so do the diagonals 1,1 -> 3,3 and 9,7 -> 7,9 |
| `Vents.CountPoints` | src/Day05.kt:172-175 | the fold maps exactly the listed points, each to its number of occurrences, so every count is at least 1 |
| `Vents.FindNumberOfOverlappingPoints` | src/Day05.kt:170-177 | the result is the number of distinct points that occur at least twice in all lines' points |
| `Vents.AllPoints` | src/Day05.kt:171 | reference definition of `flatMap { it.pointsCovered() }`: each line's points in turn |
| `Vents.OverlapCount` | src/Day05.kt:170-177 | reference definition: the number of distinct points whose multiplicity among all lines' points exceeds 1 |
| `Vents.OverlapPointsAtMostHalf` | src/Day05.kt:175 | `filter { it > 1 }` keeps at most half as many points as there are entries: twice the repeated points plus the single ones never exceed the entries |
| `Vents.MultiplicityIsCovering` | src/Day05.kt:171-174 | a point's count in the frequency map equals the number of lines whose walk covers it |
| `Vents.OverlapIsCoveredTwice` | src/Day05.kt:170-177 | a point is counted exactly when at least two lines cover it |
| `Vents.OnWalkIsCovered` | src/Day05.kt:134-143 | a point is on a line's walk exactly when its step index along the moving axis is below `cover` and the walk reaches it at that index |
| `Vents.CoveringAppendLine` | src/Day05.kt:171 | one more line adds one to the cover count of each point on its walk and nothing elsewhere |
| `Vents.AllPointsAppend` | src/Day05.kt:171 | the points of two groups of lines are those of the first followed by those of the second |
| `Vents.AllPointsReordered` | src/Day05.kt:171 | reordering the lines leaves the multiset of points unchanged |
| `Vents.OverlapCountReordered` | src/Day05.kt:170-177 | the overlap count does not depend on the order of the lines |
| `Vents.OverlapCountMonotone` | src/Day05.kt:170-177 | removing lines never increases the overlap count |
| `Vents.SingleLineNoOverlap` | src/Day05.kt:170-177 | a single line has no overlapping points |
| `Vents.HorizontalOrVerticalMultiset` | src/Day05.kt:198 | each line is kept as often as it occurs if it is vertical or horizontal, and dropped otherwise |
| `Vents.HorizontalOrVerticalKeepsOrder` | src/Day05.kt:198 | filtering a concatenation filters each part and keeps them in order |
| `Vents.SingleLineKept` | src/Day05.kt:198 | a single line is kept exactly when it is vertical or horizontal |
| `Vents.HorizontalOrVerticalCountsFewer` | src/Day05.kt:196-205 | the horizontal-and-vertical count never exceeds the count over all lines |
| `VentInput.DecimalValue` | src/Day05.kt:185-186 | `toInt` on a run of digits: a leading zero does not change the value |
| `VentInput.Numeral` | src/Day05.kt:185-186 | the decimal text of n is nonempty, all digits, and reads back as n |
| `VentInput.Pattern` | src/Day05.kt:180 | the regular expression captures four groups, and none of its tokens can swallow the start of the next |
| `VentInput.MatchPrefix` | src/Day05.kt:183-188 | a match begins with a digit, and the four coordinates of its segment are never negative, since `\d+` reads no sign |
| `VentInput.MatchTokens` | src/Day05.kt:180 | a match captures one number per `\d+` |
| `VentInput.FindFrom` | src/Day05.kt:182 | `find` returns the match at the leftmost position where the pattern matches, and nothing exactly when it matches nowhere |
| `VentInput.ParseLine` | src/Day05.kt:182-188 | reference definition of one line of `toLines`: the segment read from the leftmost match, or nothing when `find` returns null |
| `VentInput.ToLines` | src/Day05.kt:179-190 | the result is `IllegalArgument` exactly when some line has no match; otherwise one segment per line, read from its match |
| `VentInput.MatchRendered` | src/Day05.kt:180-186 | the text of a pattern whose tokens cannot swallow each other is matched back to its captured numbers |
| `VentInput.RenderText` | src/Day05.kt:180 | the text written for a segment is `x1,y1 -> x2,y2`, with the shortest numerals and one space around the arrow |
| `VentInput.ParseRender` | src/Day05.kt:179-190 | reading the text `x1,y1 -> x2,y2` of a segment gives back the segment |
| `VentInput.ToLinesRenderLines` | src/Day05.kt:179-190 | `toLines` on the written segments, one per text line, returns those segments in order |
| `VentInput.DocumentedInput` | src/Day05.kt:11 | `0,9 -> 5,9` reads as the segment from (0,9) to (5,9) |
| `VentInput.NoDigitsNoSegment` | src/Day05.kt:182 | a line without digits has no match and makes `toLines` fail with `IllegalArgument` |
| `VentInput.SegmentAfterText` | src/Day05.kt:182 | `find` skips leading text without digits and reads the segment after it |
| `HydrothermalVenture.Part1` | src/Day05.kt:196-200 | the overlap count of the horizontal and vertical lines, or `IllegalArgument` from `toLines` |
| `HydrothermalVenture.Part2` | src/Day05.kt:202-205 | the overlap count of all lines, or `IllegalArgument` from `toLines` |
| `HydrothermalVenture.PartOneAtMostPartTwo` | src/Day05.kt:196-205 | the part 1 answer never exceeds the part 2 answer |
| `VentsExample.CoveringByLine` | src/Day05.kt:11-29 | a point's cover count over the ten documented segments is the sum, over the segments, of one for each walk it lies on |
| `VentsExample.StraightCoveredTwice` | src/Day05.kt:41-64 | among the six horizontal and vertical segments, exactly (0,9), (1,9), (2,9), (3,4) and (7,4) are covered twice or more |
| `VentsExample.CoveredTwice` | src/Day05.kt:84-105 | among all ten segments, exactly the twelve points marked 2 or more in the second diagram are covered twice or more |
| `VentsExample.StraightOverlapCount` | src/Day05.kt:64 | the six horizontal and vertical segments overlap at 5 points |
| `VentsExample.AllOverlapCount` | src/Day05.kt:105 | all ten segments overlap at 12 points |
| `VentsExample.ExampleFilter` | src/Day05.kt:198 | the filter keeps the six horizontal and vertical documented segments, in their order |
| `VentsExample.ExampleAnswers` | src/Day05.kt:11-105 | over the documented segments, part 1 counts 5 overlapping points and part 2 counts 12 |
| `VentsExample.ExampleInputLines` | src/Day05.kt:11-29 | `toLines` reads the ten documented text lines as the ten documented segments |
| `VentsExample.ExampleParts` | src/Day05.kt:64-105 | `part1` on the documented input returns 5 and `part2` returns 12 |

## Left out

- Reading the input files, the day-specific `checkInput` helpers, `main`, the `println` output and the `StringBuilder` report text of Day 1 are not modelled. The measurements arrive as integers, the bit rows as 0/1 integer sequences, and the vent input as strings.
- The `check(...)` calls on the sizes of the input files are not modelled: they are about external data.
- Integer width is not modelled. Measurements, sums, coordinates and `toInt`/`parseInt` results are unbounded. 32-bit overflow, and the `NumberFormatException` of a numeral too large for `Int`, are left out.
- Digits other than 0 and 1 in a Day 3 row are not modelled: the rows must hold bits.
- Ragged Day 3 reports are excluded by a precondition: on them `add(rowIndex, col)` and `it[i]` can throw.
- The Kotlin regular-expression engine is replaced by a matcher for this one pattern: leftmost start, longest runs. Other patterns and Unicode character classes are not modelled.
