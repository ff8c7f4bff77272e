/**
  Day 5 answers: the number of points where at least two vent lines
  overlap, over the horizontal and vertical lines only (part 1) and over
  all lines (part 2).
*/
module HydrothermalVenture {
  import opened Outcomes
  import opened Vents
  import opened VentInput

  /** `part1`: read the lines, keep the horizontal and vertical ones and
      count their overlapping points. */
  method Part1(input: seq<string>) returns (r: Result<nat>)
    ensures ToLines(input).Err? ==> r == Err(IllegalArgument)
    ensures ToLines(input).Ok? ==> r == Ok(OverlapCount(HorizontalOrVertical(ToLines(input).value)))
  {
    var lines := ToLines(input);
    if lines.Err? {
      return Err(lines.failure);
    }
    var verticalOrHorizontalLines := HorizontalOrVertical(lines.value);
    var n := FindNumberOfOverlappingPoints(verticalOrHorizontalLines);
    return Ok(n);
  }

  /** `part2`: read the lines and count the overlapping points of all of
      them. */
  method Part2(input: seq<string>) returns (r: Result<nat>)
    ensures ToLines(input).Err? ==> r == Err(IllegalArgument)
    ensures ToLines(input).Ok? ==> r == Ok(OverlapCount(ToLines(input).value))
  {
    var lines := ToLines(input);
    if lines.Err? {
      return Err(lines.failure);
    }
    var n := FindNumberOfOverlappingPoints(lines.value);
    return Ok(n);
  }

  /** The part 1 answer never exceeds the part 2 answer. */
  lemma PartOneAtMostPartTwo(input: seq<string>)
    requires ToLines(input).Ok?
    ensures OverlapCount(HorizontalOrVertical(ToLines(input).value)) <= OverlapCount(ToLines(input).value)
  {
    HorizontalOrVerticalCountsFewer(ToLines(input).value);
  }
}
