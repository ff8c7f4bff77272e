/**
  The ten vent lines documented for Day 5, as text and as segments, and
  the two documented answers: 5 overlapping points among the horizontal
  and vertical lines, 12 among all lines.
*/
module VentsExample {
  import opened Outcomes
  import opened Vents
  import VentInput
  import HydrothermalVenture

  function Segment(x1: int, y1: int, x2: int, y2: int): Line
  {
    Line(Point(x1, y1), Point(x2, y2))
  }

  /** The documented input, in order. */
  function ExampleLines(): seq<Line>
  {
    [Segment(0, 9, 5, 9), Segment(8, 0, 0, 8), Segment(9, 4, 3, 4), Segment(2, 2, 2, 1),
     Segment(7, 0, 7, 4), Segment(6, 4, 2, 0), Segment(0, 9, 2, 9), Segment(3, 4, 1, 4),
     Segment(0, 0, 8, 8), Segment(5, 5, 8, 2)]
  }

  /** The six of them that are horizontal or vertical. */
  function ExampleStraightLines(): seq<Line>
  {
    [Segment(0, 9, 5, 9), Segment(9, 4, 3, 4), Segment(2, 2, 2, 1),
     Segment(7, 0, 7, 4), Segment(0, 9, 2, 9), Segment(3, 4, 1, 4)]
  }

  function Indicator(b: bool): nat
  {
    if b then 1 else 0
  }

  // ---------------------------------------------------------------------
  // each line's points in closed form

  lemma OnLine0(p: Point)
    ensures OnWalk(Segment(0, 9, 5, 9), p) <==> p.y == 9 && 0 <= p.x <= 5
  {
  }

  lemma OnLine1(p: Point)
    ensures OnWalk(Segment(8, 0, 0, 8), p) <==> p.x + p.y == 8 && 0 <= p.x <= 8
  {
  }

  lemma OnLine2(p: Point)
    ensures OnWalk(Segment(9, 4, 3, 4), p) <==> p.y == 4 && 3 <= p.x <= 9
  {
  }

  lemma OnLine3(p: Point)
    ensures OnWalk(Segment(2, 2, 2, 1), p) <==> p.x == 2 && 1 <= p.y <= 2
  {
  }

  lemma OnLine4(p: Point)
    ensures OnWalk(Segment(7, 0, 7, 4), p) <==> p.x == 7 && 0 <= p.y <= 4
  {
  }

  lemma OnLine5(p: Point)
    ensures OnWalk(Segment(6, 4, 2, 0), p) <==> p.x - p.y == 2 && 2 <= p.x <= 6
  {
  }

  lemma OnLine6(p: Point)
    ensures OnWalk(Segment(0, 9, 2, 9), p) <==> p.y == 9 && 0 <= p.x <= 2
  {
  }

  lemma OnLine7(p: Point)
    ensures OnWalk(Segment(3, 4, 1, 4), p) <==> p.y == 4 && 1 <= p.x <= 3
  {
  }

  lemma OnLine8(p: Point)
    ensures OnWalk(Segment(0, 0, 8, 8), p) <==> p.x == p.y && 0 <= p.x <= 8
  {
  }

  lemma OnLine9(p: Point)
    ensures OnWalk(Segment(5, 5, 8, 2), p) <==> p.x + p.y == 10 && 5 <= p.x <= 8
  {
  }

  lemma OnLines(p: Point)
    ensures OnWalk(Segment(0, 9, 5, 9), p) <==> p.y == 9 && 0 <= p.x <= 5
    ensures OnWalk(Segment(8, 0, 0, 8), p) <==> p.x + p.y == 8 && 0 <= p.x <= 8
    ensures OnWalk(Segment(9, 4, 3, 4), p) <==> p.y == 4 && 3 <= p.x <= 9
    ensures OnWalk(Segment(2, 2, 2, 1), p) <==> p.x == 2 && 1 <= p.y <= 2
    ensures OnWalk(Segment(7, 0, 7, 4), p) <==> p.x == 7 && 0 <= p.y <= 4
    ensures OnWalk(Segment(6, 4, 2, 0), p) <==> p.x - p.y == 2 && 2 <= p.x <= 6
    ensures OnWalk(Segment(0, 9, 2, 9), p) <==> p.y == 9 && 0 <= p.x <= 2
    ensures OnWalk(Segment(3, 4, 1, 4), p) <==> p.y == 4 && 1 <= p.x <= 3
    ensures OnWalk(Segment(0, 0, 8, 8), p) <==> p.x == p.y && 0 <= p.x <= 8
    ensures OnWalk(Segment(5, 5, 8, 2), p) <==> p.x + p.y == 10 && 5 <= p.x <= 8
  {
    OnLine0(p); OnLine1(p); OnLine2(p); OnLine3(p); OnLine4(p);
    OnLine5(p); OnLine6(p); OnLine7(p); OnLine8(p); OnLine9(p);
  }

  /** CoveringAppendLine with the indicator spelled as a function. */
  lemma CoveringSnoc(lines: seq<Line>, l: Line, p: Point)
    ensures Covering(lines + [l], p) == Covering(lines, p) + Indicator(OnWalk(l, p))
  {
    CoveringAppendLine(lines, l, p);
  }

  // ---------------------------------------------------------------------
  // part 1: the horizontal and vertical lines

  lemma StraightCoveringByLine(p: Point)
    ensures Covering(ExampleStraightLines(), p)
            == Indicator(OnWalk(Segment(0, 9, 5, 9), p)) + Indicator(OnWalk(Segment(9, 4, 3, 4), p))
               + Indicator(OnWalk(Segment(2, 2, 2, 1), p)) + Indicator(OnWalk(Segment(7, 0, 7, 4), p))
               + Indicator(OnWalk(Segment(0, 9, 2, 9), p)) + Indicator(OnWalk(Segment(3, 4, 1, 4), p))
  {
    var lines: seq<Line> := [];
    assert Covering(lines, p) == 0;
    CoveringSnoc(lines, Segment(0, 9, 5, 9), p); lines := lines + [Segment(0, 9, 5, 9)];
    CoveringSnoc(lines, Segment(9, 4, 3, 4), p); lines := lines + [Segment(9, 4, 3, 4)];
    CoveringSnoc(lines, Segment(2, 2, 2, 1), p); lines := lines + [Segment(2, 2, 2, 1)];
    CoveringSnoc(lines, Segment(7, 0, 7, 4), p); lines := lines + [Segment(7, 0, 7, 4)];
    CoveringSnoc(lines, Segment(0, 9, 2, 9), p); lines := lines + [Segment(0, 9, 2, 9)];
    CoveringSnoc(lines, Segment(3, 4, 1, 4), p); lines := lines + [Segment(3, 4, 1, 4)];
    assert lines == ExampleStraightLines();
  }

  /** How many of the six straight lines pass through (x, y). */
  function StraightCoverAt(x: int, y: int): nat
  {
    Indicator(y == 9 && 0 <= x <= 5) + Indicator(y == 4 && 3 <= x <= 9)
    + Indicator(x == 2 && 1 <= y <= 2) + Indicator(x == 7 && 0 <= y <= 4)
    + Indicator(y == 9 && 0 <= x <= 2) + Indicator(y == 4 && 1 <= x <= 3)
  }

  /** The points marked 2 in the first documented diagram. */
  function StraightOverlaps(): set<Point>
  {
    {Point(0, 9), Point(1, 9), Point(2, 9), Point(3, 4), Point(7, 4)}
  }

  lemma StraightOverlapsAt(x: int, y: int)
    ensures StraightCoverAt(x, y) >= 2 <==> Point(x, y) in StraightOverlaps()
  {
  }

  lemma StraightOverlapsSize()
    ensures |StraightOverlaps()| == 5
  {
  }

  lemma StraightCoveredTwice(p: Point)
    ensures Covering(ExampleStraightLines(), p) >= 2 <==> p in StraightOverlaps()
  {
    StraightCoveringByLine(p);
    OnLines(p);
    assert Covering(ExampleStraightLines(), p) == StraightCoverAt(p.x, p.y);
    StraightOverlapsAt(p.x, p.y);
  }

  /** The documented part 1 answer over the straight lines. */
  lemma StraightOverlapCount()
    ensures OverlapCount(ExampleStraightLines()) == 5
  {
    var lines := ExampleStraightLines();
    OverlapIsCoveredTwice(lines);
    forall p
      ensures p in OverlapPoints(AllPoints(lines)) <==> p in StraightOverlaps()
    {
      StraightCoveredTwice(p);
    }
    assert OverlapPoints(AllPoints(lines)) == StraightOverlaps();
    StraightOverlapsSize();
  }

  // ---------------------------------------------------------------------
  // part 2: all lines

  lemma CoveringByLine(p: Point)
    ensures Covering(ExampleLines(), p)
            == Indicator(OnWalk(Segment(0, 9, 5, 9), p)) + Indicator(OnWalk(Segment(8, 0, 0, 8), p))
               + Indicator(OnWalk(Segment(9, 4, 3, 4), p)) + Indicator(OnWalk(Segment(2, 2, 2, 1), p))
               + Indicator(OnWalk(Segment(7, 0, 7, 4), p)) + Indicator(OnWalk(Segment(6, 4, 2, 0), p))
               + Indicator(OnWalk(Segment(0, 9, 2, 9), p)) + Indicator(OnWalk(Segment(3, 4, 1, 4), p))
               + Indicator(OnWalk(Segment(0, 0, 8, 8), p)) + Indicator(OnWalk(Segment(5, 5, 8, 2), p))
  {
    var lines: seq<Line> := [];
    assert Covering(lines, p) == 0;
    CoveringSnoc(lines, Segment(0, 9, 5, 9), p); lines := lines + [Segment(0, 9, 5, 9)];
    CoveringSnoc(lines, Segment(8, 0, 0, 8), p); lines := lines + [Segment(8, 0, 0, 8)];
    CoveringSnoc(lines, Segment(9, 4, 3, 4), p); lines := lines + [Segment(9, 4, 3, 4)];
    CoveringSnoc(lines, Segment(2, 2, 2, 1), p); lines := lines + [Segment(2, 2, 2, 1)];
    CoveringSnoc(lines, Segment(7, 0, 7, 4), p); lines := lines + [Segment(7, 0, 7, 4)];
    CoveringSnoc(lines, Segment(6, 4, 2, 0), p); lines := lines + [Segment(6, 4, 2, 0)];
    CoveringSnoc(lines, Segment(0, 9, 2, 9), p); lines := lines + [Segment(0, 9, 2, 9)];
    CoveringSnoc(lines, Segment(3, 4, 1, 4), p); lines := lines + [Segment(3, 4, 1, 4)];
    CoveringSnoc(lines, Segment(0, 0, 8, 8), p); lines := lines + [Segment(0, 0, 8, 8)];
    CoveringSnoc(lines, Segment(5, 5, 8, 2), p); lines := lines + [Segment(5, 5, 8, 2)];
    assert lines == ExampleLines();
  }

  /** How many of the ten lines pass through (x, y). */
  function CoverAt(x: int, y: int): nat
  {
    Indicator(y == 9 && 0 <= x <= 5) + Indicator(x + y == 8 && 0 <= x <= 8)
    + Indicator(y == 4 && 3 <= x <= 9) + Indicator(x == 2 && 1 <= y <= 2)
    + Indicator(x == 7 && 0 <= y <= 4) + Indicator(x - y == 2 && 2 <= x <= 6)
    + Indicator(y == 9 && 0 <= x <= 2) + Indicator(y == 4 && 1 <= x <= 3)
    + Indicator(x == y && 0 <= x <= 8) + Indicator(x + y == 10 && 5 <= x <= 8)
  }

  /** The points marked 2 or more in the second documented diagram. */
  function AllOverlaps(): set<Point>
  {
    {Point(7, 1), Point(2, 2), Point(5, 3), Point(7, 3), Point(3, 4), Point(4, 4),
     Point(6, 4), Point(7, 4), Point(5, 5), Point(0, 9), Point(1, 9), Point(2, 9)}
  }

  lemma AllOverlapsAt(x: int, y: int)
    ensures CoverAt(x, y) >= 2 <==> Point(x, y) in AllOverlaps()
  {
    if y < 0 || y > 9 {
    } else if y == 0 {
    } else if y == 1 {
    } else if y == 2 {
    } else if y == 3 {
    } else if y == 4 {
    } else if y == 5 {
    } else if y == 6 {
    } else if y == 7 {
    } else if y == 8 {
    } else {
    }
  }

  lemma CoveredTwice(p: Point)
    ensures Covering(ExampleLines(), p) >= 2 <==> p in AllOverlaps()
  {
    CoveringByLine(p);
    OnLines(p);
    assert Covering(ExampleLines(), p) == CoverAt(p.x, p.y);
    AllOverlapsAt(p.x, p.y);
  }

  lemma AllOverlapsSize()
    ensures |AllOverlaps()| == 12
  {
  }

  /** The documented part 2 answer. */
  lemma AllOverlapCount()
    ensures OverlapCount(ExampleLines()) == 12
  {
    var lines := ExampleLines();
    OverlapIsCoveredTwice(lines);
    forall p
      ensures p in OverlapPoints(AllPoints(lines)) <==> p in AllOverlaps()
    {
      CoveredTwice(p);
    }
    assert OverlapPoints(AllPoints(lines)) == AllOverlaps();
    AllOverlapsSize();
  }

  // ---------------------------------------------------------------------
  // the filter of part 1

  predicate Straight(l: Line)
  {
    IsVertical(l) || IsHorizontal(l)
  }

  /** One more line either passes the filter or not. */
  lemma FilterSnoc(lines: seq<Line>, l: Line)
    ensures HorizontalOrVertical(lines + [l]) == HorizontalOrVertical(lines) + (if Straight(l) then [l] else [])
  {
    HorizontalOrVerticalKeepsOrder(lines, [l]);
    SingleLineKept(l);
  }

  /** Filtering five lines of which the 2nd is diagonal. */
  lemma FilterFirstFive(x0: Line, x1: Line, x2: Line, x3: Line, x4: Line)
    requires Straight(x0) && !Straight(x1) && Straight(x2) && Straight(x3) && Straight(x4)
    ensures HorizontalOrVertical([x0, x1, x2, x3, x4]) == [x0, x2, x3, x4]
  {
    FilterSnoc([], x0);
    assert [] + [x0] == [x0];
    FilterSnoc([x0], x1);
    assert [x0] + [x1] == [x0, x1];
    FilterSnoc([x0, x1], x2);
    assert [x0, x1] + [x2] == [x0, x1, x2];
    FilterSnoc([x0, x1, x2], x3);
    assert [x0, x1, x2] + [x3] == [x0, x1, x2, x3];
    FilterSnoc([x0, x1, x2, x3], x4);
    assert [x0, x1, x2, x3] + [x4] == [x0, x1, x2, x3, x4];
  }

  /** Filtering five lines of which the 1st, 4th and 5th are diagonal. */
  lemma FilterLastFive(x0: Line, x1: Line, x2: Line, x3: Line, x4: Line)
    requires !Straight(x0) && Straight(x1) && Straight(x2) && !Straight(x3) && !Straight(x4)
    ensures HorizontalOrVertical([x0, x1, x2, x3, x4]) == [x1, x2]
  {
    FilterSnoc([], x0);
    assert [] + [x0] == [x0];
    FilterSnoc([x0], x1);
    assert [x0] + [x1] == [x0, x1];
    FilterSnoc([x0, x1], x2);
    assert [x0, x1] + [x2] == [x0, x1, x2];
    FilterSnoc([x0, x1, x2], x3);
    assert [x0, x1, x2] + [x3] == [x0, x1, x2, x3];
    FilterSnoc([x0, x1, x2, x3], x4);
    assert [x0, x1, x2, x3] + [x4] == [x0, x1, x2, x3, x4];
  }

  /** The filter of part 1 keeps exactly the six straight lines, in order. */
  lemma ExampleFilter()
    ensures HorizontalOrVertical(ExampleLines()) == ExampleStraightLines()
  {
    var e := ExampleLines();
    var first, last := e[..5], e[5..];
    FilterFirstFive(e[0], e[1], e[2], e[3], e[4]);
    FilterLastFive(e[5], e[6], e[7], e[8], e[9]);
    assert first == [e[0], e[1], e[2], e[3], e[4]];
    assert last == [e[5], e[6], e[7], e[8], e[9]];
    HorizontalOrVerticalKeepsOrder(first, last);
    assert first + last == e;
  }

  /** The documented answers over the documented lines: 5 for part 1 and 12
      for part 2. */
  lemma ExampleAnswers()
    ensures OverlapCount(HorizontalOrVertical(ExampleLines())) == 5
    ensures OverlapCount(ExampleLines()) == 12
  {
    ExampleFilter();
    StraightOverlapCount();
    AllOverlapCount();
  }

  // ---------------------------------------------------------------------
  // the documented input as text

  /** The ten documented input lines. */
  function ExampleInput(): seq<string>
  {
    ["0,9 -> 5,9", "8,0 -> 0,8", "9,4 -> 3,4", "2,2 -> 2,1", "7,0 -> 7,4",
     "6,4 -> 2,0", "0,9 -> 2,9", "3,4 -> 1,4", "0,0 -> 8,8", "5,5 -> 8,2"]
  }

  /** A segment with one-digit coordinates is written in ten characters. */
  lemma RenderDigits(x1: nat, y1: nat, x2: nat, y2: nat)
    requires x1 < 10 && y1 < 10 && x2 < 10 && y2 < 10
    ensures VentInput.Render(Segment(x1, y1, x2, y2))
            == [VentInput.DigitChar(x1), ',', VentInput.DigitChar(y1), ' ', '-', '>', ' ',
                VentInput.DigitChar(x2), ',', VentInput.DigitChar(y2)]
  {
    VentInput.RenderText(Segment(x1, y1, x2, y2));
  }

  lemma FirstFiveRendered()
    ensures VentInput.RenderLines(ExampleLines())[..5] == ExampleInput()[..5]
  {
    RenderDigits(0, 9, 5, 9); RenderDigits(8, 0, 0, 8); RenderDigits(9, 4, 3, 4);
    RenderDigits(2, 2, 2, 1); RenderDigits(7, 0, 7, 4);
  }

  lemma LastFiveRendered()
    ensures VentInput.RenderLines(ExampleLines())[5..] == ExampleInput()[5..]
  {
    RenderDigits(6, 4, 2, 0); RenderDigits(0, 9, 2, 9); RenderDigits(3, 4, 1, 4);
    RenderDigits(0, 0, 8, 8); RenderDigits(5, 5, 8, 2);
  }

  /** `toLines` reads the documented input as the ten documented segments. */
  lemma ExampleInputLines()
    ensures VentInput.ToLines(ExampleInput()) == Ok(ExampleLines())
  {
    var text := VentInput.RenderLines(ExampleLines());
    FirstFiveRendered();
    LastFiveRendered();
    assert text == text[..5] + text[5..];
    assert ExampleInput() == ExampleInput()[..5] + ExampleInput()[5..];
    VentInput.ToLinesRenderLines(ExampleLines());
  }

  /** `part1` and `part2` on the documented input return 5 and 12. */
  method ExampleParts() returns (part1: Result<nat>, part2: Result<nat>)
    ensures part1 == Ok(5) && part2 == Ok(12)
  {
    var input := ExampleInput();
    ExampleInputLines();
    ExampleAnswers();
    part1 := HydrothermalVenture.Part1(input);
    part2 := HydrothermalVenture.Part2(input);
  }
}
