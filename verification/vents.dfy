/**
  Day 5, Hydrothermal Venture: vent lines on an integer grid, the grid
  points each line covers, and the number of points covered by at least
  two lines.
*/
module Vents {

  datatype Point = Point(x: int, y: int)

  datatype Line = Line(start: Point, end: Point)

  // ---------------------------------------------------------------------
  // one line

  function Abs(n: int): (a: nat)
    ensures a == n || a == -n
  {
    if n < 0 then -n else n
  }

  /** `directionOfCover`: the unit step that walks from `start` to `end`. */
  function DirectionOfCover(start: int, end: int): (dir: int)
    ensures -1 <= dir <= 1
    ensures dir == 0 <==> start == end
    ensures start + Abs(end - start) * dir == end
    ensures dir * (end - start) == Abs(end - start)
  {
    if start < end then 1
    else if start > end then -1
    else 0
  }

  /** `xDir`: the unit step along x that walks from the start to the end. */
  function XDir(l: Line): (d: int)
    ensures -1 <= d <= 1
    ensures d == 0 <==> l.start.x == l.end.x
    ensures l.start.x + Abs(l.end.x - l.start.x) * d == l.end.x
  {
    DirectionOfCover(l.start.x, l.end.x)
  }

  /** `yDir`: the unit step along y that walks from the start to the end. */
  function YDir(l: Line): (d: int)
    ensures -1 <= d <= 1
    ensures d == 0 <==> l.start.y == l.end.y
    ensures l.start.y + Abs(l.end.y - l.start.y) * d == l.end.y
  {
    DirectionOfCover(l.start.y, l.end.y)
  }

  /** How many points the line covers: one more than its longer extent. */
  function Cover(l: Line): (n: nat)
    ensures n > Abs(l.end.x - l.start.x) && n > Abs(l.end.y - l.start.y)
    ensures n == Abs(l.end.x - l.start.x) + 1 || n == Abs(l.end.y - l.start.y) + 1
  {
    var xCover := Abs(l.end.x - l.start.x) + 1;
    var yCover := Abs(l.end.y - l.start.y) + 1;
    if xCover > yCover then xCover else yCover
  }

  /** The point reached after k steps from the start. */
  function PointAt(l: Line, k: int): Point
  {
    Point(l.start.x + k * XDir(l), l.start.y + k * YDir(l))
  }

  /** The points a line covers, in the order `pointsCovered` lists them. */
  function CoveredPoints(l: Line): seq<Point>
  {
    seq(Cover(l), k => PointAt(l, k))
  }

  /** `Line.pointsCovered`: walk `cover` steps from the start, appending
      the current point and moving one unit step along each axis. */
  method PointsCovered(line: Line) returns (pointsCovered: seq<Point>)
    ensures pointsCovered == CoveredPoints(line)
  {
    pointsCovered := [];
    var xDir := DirectionOfCover(line.start.x, line.end.x);
    var yDir := DirectionOfCover(line.start.y, line.end.y);
    var xCover := Abs(line.end.x - line.start.x) + 1;
    var yCover := Abs(line.end.y - line.start.y) + 1;
    var cover := if xCover > yCover then xCover else yCover;
    var x1 := line.start.x;
    var y1 := line.start.y;
    for k := 0 to cover
      invariant |pointsCovered| == k
      invariant forall j :: 0 <= j < k ==> pointsCovered[j] == PointAt(line, j)
      invariant x1 == line.start.x + k * xDir && y1 == line.start.y + k * yDir
    {
      pointsCovered := pointsCovered + [Point(x1, y1)];
      x1 := x1 + xDir;
      y1 := y1 + yDir;
    }
  }

  /** `isVertical`: the walk never moves along x. */
  predicate IsVertical(l: Line): (v: bool)
    ensures v <==> XDir(l) == 0
  {
    l.start.x == l.end.x
  }

  /** `isHorizontal`: the walk never moves along y. */
  predicate IsHorizontal(l: Line): (h: bool)
    ensures h <==> YDir(l) == 0
  {
    l.start.y == l.end.y
  }

  /** The 45-degree diagonals: equal extent along both axes. */
  predicate IsDiagonal(l: Line)
  {
    Abs(l.end.x - l.start.x) == Abs(l.end.y - l.start.y)
  }

  /** The only lines the vent mapping system reports. */
  predicate IsStraight(l: Line)
  {
    IsVertical(l) || IsHorizontal(l) || IsDiagonal(l)
  }

  /** The walk has one point per unit of the longer extent plus one, starts
      at `start` and moves by exactly the two unit directions each step. */
  lemma CoveredPointsShape(l: Line)
    ensures |CoveredPoints(l)| == Cover(l) >= 1
    ensures CoveredPoints(l)[0] == l.start
    ensures forall k :: 0 < k < |CoveredPoints(l)| ==>
              CoveredPoints(l)[k] == Point(CoveredPoints(l)[k - 1].x + XDir(l), CoveredPoints(l)[k - 1].y + YDir(l))
  {
  }

  /** On a straight line the walk's extent along each axis is that axis's
      full extent. */
  lemma StraightEnd(l: Line)
    requires IsStraight(l)
    ensures l.end == PointAt(l, Cover(l) - 1)
  {
    var dx, dy := l.end.x - l.start.x, l.end.y - l.start.y;
    if IsVertical(l) {
      assert Cover(l) - 1 == Abs(dy);
    } else if IsHorizontal(l) {
      assert Cover(l) - 1 == Abs(dx);
    } else {
      assert Cover(l) - 1 == Abs(dx) == Abs(dy);
    }
  }

  /** The last point covered is `end` exactly when the line is horizontal,
      vertical or a 45-degree diagonal; any other line overshoots along its
      shorter axis. */
  lemma LastPointIsEnd(l: Line)
    ensures CoveredPoints(l)[Cover(l) - 1] == l.end <==> IsStraight(l)
  {
    if IsStraight(l) {
      StraightEnd(l);
    } else {
      var n := Cover(l) - 1;
      var dx, dy := l.end.x - l.start.x, l.end.y - l.start.y;
      if Abs(dx) > Abs(dy) {
        assert n == Abs(dx);
        var yDir := YDir(l);
        assert yDir == 1 || yDir == -1;
        assert l.start.y + n * yDir != l.start.y + Abs(dy) * yDir;
      } else {
        assert n == Abs(dy);
        var xDir := XDir(l);
        assert xDir == 1 || xDir == -1;
        assert l.start.x + n * xDir != l.start.x + Abs(dx) * xDir;
      }
    }
  }

  /** Distinct step counts reach distinct points unless the line is a
      single point. */
  lemma PointAtInjective(l: Line, i: int, j: int)
    requires i != j && l.start != l.end
    ensures PointAt(l, i) != PointAt(l, j)
  {
    var xDir, yDir := XDir(l), YDir(l);
    if xDir != 0 {
      assert xDir == 1 || xDir == -1;
      assert (i - j) * xDir != 0;
      assert PointAt(l, i).x - PointAt(l, j).x == (i - j) * xDir;
    } else {
      assert yDir == 1 || yDir == -1;
      assert (i - j) * yDir != 0;
      assert PointAt(l, i).y - PointAt(l, j).y == (i - j) * yDir;
    }
  }

  /** No point is listed twice for one line. */
  lemma CoveredPointsDistinct(l: Line)
    ensures forall i, j :: 0 <= i < j < |CoveredPoints(l)| ==> CoveredPoints(l)[i] != CoveredPoints(l)[j]
  {
    var cp := CoveredPoints(l);
    if l.start == l.end {
      assert |cp| == 1;
    } else {
      forall i, j | 0 <= i < j < |cp|
        ensures cp[i] != cp[j]
      {
        PointAtInjective(l, i, j);
      }
    }
  }

  /** A vertical line keeps its x, a horizontal one its y, and on a
      45-degree diagonal the k-th point is k away from the start on both
      axes. */
  lemma CoveredPointsAxes(l: Line)
    ensures IsVertical(l) ==> forall p :: p in CoveredPoints(l) ==> p.x == l.start.x
    ensures IsHorizontal(l) ==> forall p :: p in CoveredPoints(l) ==> p.y == l.start.y
    ensures IsDiagonal(l) ==> forall k :: 0 <= k < |CoveredPoints(l)| ==>
              Abs(CoveredPoints(l)[k].x - l.start.x) == Abs(CoveredPoints(l)[k].y - l.start.y) == k
  {
    var cp := CoveredPoints(l);
    if IsDiagonal(l) && !IsVertical(l) {
      forall k | 0 <= k < |cp|
        ensures Abs(cp[k].x - l.start.x) == Abs(cp[k].y - l.start.y) == k
      {
        var xDir, yDir := XDir(l), YDir(l);
        assert xDir == 1 || xDir == -1;
        assert yDir == 1 || yDir == -1;
      }
    }
  }

  /** Walking k steps back from the end of a straight line reaches the
      point k steps short of the end. */
  lemma ReversedPoint(l: Line, k: int)
    requires IsStraight(l)
    ensures PointAt(Line(l.end, l.start), k) == PointAt(l, Cover(l) - 1 - k)
  {
    var r := Line(l.end, l.start);
    StraightEnd(l);
    var n, xDir, yDir := Cover(l), XDir(l), YDir(l);
    assert XDir(r) == -xDir && YDir(r) == -yDir;
    assert (n - 1) * xDir - k * xDir == (n - 1 - k) * xDir;
    assert (n - 1) * yDir - k * yDir == (n - 1 - k) * yDir;
  }

  /** A straight line read from the other end covers the same points in
      the opposite order. */
  lemma ReversedLine(l: Line)
    requires IsStraight(l)
    ensures |CoveredPoints(Line(l.end, l.start))| == |CoveredPoints(l)|
    ensures forall k :: 0 <= k < |CoveredPoints(l)| ==>
              CoveredPoints(Line(l.end, l.start))[k] == CoveredPoints(l)[|CoveredPoints(l)| - 1 - k]
  {
    var r := Line(l.end, l.start);
    assert Cover(r) == Cover(l);
    forall k | 0 <= k < Cover(l)
      ensures PointAt(r, k) == PointAt(l, Cover(l) - 1 - k)
    {
      ReversedPoint(l, k);
    }
  }

  /** The entries documented for the puzzle. */
  lemma DocumentedLines()
    ensures CoveredPoints(Line(Point(1, 1), Point(1, 3))) == [Point(1, 1), Point(1, 2), Point(1, 3)]
    ensures CoveredPoints(Line(Point(9, 7), Point(7, 7))) == [Point(9, 7), Point(8, 7), Point(7, 7)]
    ensures CoveredPoints(Line(Point(1, 1), Point(3, 3))) == [Point(1, 1), Point(2, 2), Point(3, 3)]
    ensures CoveredPoints(Line(Point(9, 7), Point(7, 9))) == [Point(9, 7), Point(8, 8), Point(7, 9)]
  {
  }

  // ---------------------------------------------------------------------
  // many lines

  /** `flatMap { it.pointsCovered() }`: every line's points, line after line. */
  function AllPoints(lines: seq<Line>): seq<Point>
  {
    if |lines| == 0 then []
    else AllPoints(lines[..|lines| - 1]) + CoveredPoints(lines[|lines| - 1])
  }

  /** The points that occur more than once. */
  function OverlapPoints(points: seq<Point>): set<Point>
  {
    set p | p in points && multiset(points)[p] > 1
  }

  /** Appending x to a list adds one occurrence of x and none of any other
      point. */
  lemma SnocOccurrences(rest: seq<Point>, x: Point, p: Point)
    ensures multiset(rest + [x])[p] == multiset(rest)[p] + (if p == x then 1 else 0)
    ensures p in rest + [x] <==> p in rest || p == x
  {
  }

  /** The points occurring exactly `n` times. */
  function Occurring(points: seq<Point>, n: nat): set<Point>
  {
    set p | p in points && multiset(points)[p] == n
  }

  /** A first occurrence makes the point occur once. */
  lemma FirstOccurrence(rest: seq<Point>, x: Point)
    requires multiset(rest)[x] == 0
    ensures OverlapPoints(rest + [x]) == OverlapPoints(rest)
    ensures Occurring(rest + [x], 1) == Occurring(rest, 1) + {x} && x !in Occurring(rest, 1)
  {
    forall p
      ensures (p in OverlapPoints(rest + [x]) <==> p in OverlapPoints(rest))
      ensures (p in Occurring(rest + [x], 1) <==> p in Occurring(rest, 1) + {x})
    {
      SnocOccurrences(rest, x, p);
    }
  }

  /** A second occurrence moves the point from the single to the repeated
      points. */
  lemma SecondOccurrence(rest: seq<Point>, x: Point)
    requires multiset(rest)[x] == 1
    ensures OverlapPoints(rest + [x]) == OverlapPoints(rest) + {x} && x !in OverlapPoints(rest)
    ensures Occurring(rest + [x], 1) + {x} == Occurring(rest, 1) && x !in Occurring(rest + [x], 1)
  {
    forall p
      ensures (p in OverlapPoints(rest + [x]) <==> p in OverlapPoints(rest) + {x})
      ensures (p in Occurring(rest + [x], 1) + {x} <==> p in Occurring(rest, 1))
    {
      SnocOccurrences(rest, x, p);
    }
  }

  /** A third or later occurrence changes neither set. */
  lemma LaterOccurrence(rest: seq<Point>, x: Point)
    requires multiset(rest)[x] > 1
    ensures OverlapPoints(rest + [x]) == OverlapPoints(rest)
    ensures Occurring(rest + [x], 1) == Occurring(rest, 1)
  {
    forall p
      ensures (p in OverlapPoints(rest + [x]) <==> p in OverlapPoints(rest))
      ensures (p in Occurring(rest + [x], 1) <==> p in Occurring(rest, 1))
    {
      SnocOccurrences(rest, x, p);
    }
  }

  /** Every point that occurs more than once takes two entries of the list
      and every point that occurs once takes one, so twice the first number
      plus the second never exceeds the length. */
  lemma {:induction false} OverlapPointsAtMostHalf(points: seq<Point>)
    ensures 2 * |OverlapPoints(points)| + |Occurring(points, 1)| <= |points|
    ensures 2 * |OverlapPoints(points)| <= |points|
  {
    if |points| > 0 {
      var rest, x := points[..|points| - 1], points[|points| - 1];
      assert points == rest + [x];
      OverlapPointsAtMostHalf(rest);
      if multiset(rest)[x] == 0 {
        FirstOccurrence(rest, x);
      } else if multiset(rest)[x] == 1 {
        SecondOccurrence(rest, x);
      } else {
        LaterOccurrence(rest, x);
      }
    }
  }

  /** The number of points at which at least two lines overlap. */
  function OverlapCount(lines: seq<Line>): nat
  {
    |OverlapPoints(AllPoints(lines))|
  }

  /** `counts` maps exactly the points that occur to their multiplicity. */
  ghost predicate IsFrequencyMap(counts: map<Point, int>, points: seq<Point>)
  {
    && (forall p :: p in counts <==> p in points)
    && (forall p :: p in counts ==> counts[p] == multiset(points)[p])
  }

  /** The `fold` into a mutable map: add one to the point's count, starting
      from 0 for a point not seen before. */
  method CountPoints(points: seq<Point>) returns (counts: map<Point, int>)
    ensures IsFrequencyMap(counts, points)
    ensures forall p :: p in counts ==> counts[p] >= 1
  {
    counts := map[];
    for i := 0 to |points|
      invariant IsFrequencyMap(counts, points[..i])
    {
      var point := points[i];
      assert points[..i + 1] == points[..i] + [point];
      counts := counts[point := (if point in counts then counts[point] else 0) + 1];
    }
    assert points[..|points|] == points;
  }

  /** `findNumberOfOverlappingPoints`: list every line's points, count them
      in a map, and count the entries above 1. */
  method FindNumberOfOverlappingPoints(lines: seq<Line>) returns (n: nat)
    ensures n == OverlapCount(lines)
  {
    var points: seq<Point> := [];
    for i := 0 to |lines|
      invariant points == AllPoints(lines[..i])
    {
      var covered := PointsCovered(lines[i]);
      assert lines[..i + 1][..i] == lines[..i];
      points := points + covered;
    }
    assert lines[..|lines|] == lines;
    var counts := CountPoints(points);
    var overlapping := set p | p in counts && counts[p] > 1;
    assert overlapping == OverlapPoints(points);
    n := |overlapping|;
  }

  /** Listing the points of two groups of lines is listing each in turn. */
  lemma {:induction false} AllPointsAppend(a: seq<Line>, b: seq<Line>)
    ensures AllPoints(a + b) == AllPoints(a) + AllPoints(b)
    decreases |b|
  {
    if |b| == 0 {
      assert a + b == a;
    } else {
      var b' := b[..|b| - 1];
      assert (a + b)[..|a + b| - 1] == a + b';
      AllPointsAppend(a, b');
    }
  }

  /** The points of one line in the middle of the list come between
      those of the lines before it and those of the lines after it. */
  lemma AllPointsAround(front: seq<Line>, line: Line, back: seq<Line>)
    ensures AllPoints(front + [line] + back) == AllPoints(front) + CoveredPoints(line) + AllPoints(back)
  {
    AllPointsAppend(front + [line], back);
    assert (front + [line])[..|front|] == front;
  }

  /** Moving the middle piece out of a concatenation keeps its multiset. */
  lemma MultisetMiddle<T>(x: seq<T>, y: seq<T>, z: seq<T>)
    ensures multiset(x + y + z) == multiset(x + z) + multiset(y)
  {
  }

  lemma SplitAt<T>(s: seq<T>, j: nat)
    requires j < |s|
    ensures s == s[..j] + [s[j]] + s[j + 1..]
  {
  }

  /** The sequence with its j-th element taken out. */
  function Without<T>(s: seq<T>, j: nat): (r: seq<T>)
    requires j < |s|
    ensures |r| == |s| - 1
  {
    s[..j] + s[j + 1..]
  }

  lemma MultisetCancel<T>(x: multiset<T>, y: multiset<T>, e: T)
    requires x + multiset{e} == y + multiset{e}
    ensures x == y
  {
    forall v
      ensures x[v] == y[v]
    {
      assert (x + multiset{e})[v] == (y + multiset{e})[v];
    }
  }

  /** Where an element of a sequence sits. */
  lemma IndexOf<T>(s: seq<T>, x: T) returns (j: nat)
    requires x in multiset(s)
    ensures j < |s| && s[j] == x
  {
    j :| 0 <= j < |s| && s[j] == x;
  }

  /** Taking one line out of the list takes its points out of the
      multiset of all points. */
  lemma AllPointsRemove(b: seq<Line>, j: nat)
    requires j < |b|
    ensures multiset(b) == multiset(Without(b, j)) + multiset{b[j]}
    ensures multiset(AllPoints(b)) == multiset(AllPoints(Without(b, j))) + multiset(CoveredPoints(b[j]))
  {
    SplitAt(b, j);
    MultisetMiddle(b[..j], [b[j]], b[j + 1..]);
    AllPointsAround(b[..j], b[j], b[j + 1..]);
    AllPointsAppend(b[..j], b[j + 1..]);
    MultisetMiddle(AllPoints(b[..j]), CoveredPoints(b[j]), AllPoints(b[j + 1..]));
  }

  /** The points of the lines, as a multiset, depend only on which lines
      there are and not on their order. */
  lemma {:induction false} AllPointsReordered(a: seq<Line>, b: seq<Line>)
    requires multiset(a) == multiset(b)
    ensures multiset(AllPoints(a)) == multiset(AllPoints(b))
    decreases |a|
  {
    if |a| > 0 {
      var j := IndexOf(b, a[|a| - 1]);
      AllPointsRemove(a, |a| - 1);
      AllPointsRemove(b, j);
      MultisetCancel(multiset(Without(a, |a| - 1)), multiset(Without(b, j)), b[j]);
      AllPointsReordered(Without(a, |a| - 1), Without(b, j));
    } else {
      assert |b| == |multiset(b)| == 0;
    }
  }

  /** Reordering the input lines does not change the answer. */
  lemma OverlapCountReordered(a: seq<Line>, b: seq<Line>)
    requires multiset(a) == multiset(b)
    ensures OverlapCount(a) == OverlapCount(b)
  {
    AllPointsReordered(a, b);
    assert OverlapPoints(AllPoints(a)) == OverlapPoints(AllPoints(b));
  }

  /** Fewer lines cover every point at most as often. */
  lemma {:induction false} AllPointsSubMultiset(a: seq<Line>, b: seq<Line>)
    requires multiset(a) <= multiset(b)
    ensures multiset(AllPoints(a)) <= multiset(AllPoints(b))
    decreases |a|
  {
    if |a| > 0 {
      var j := IndexOf(b, a[|a| - 1]);
      AllPointsRemove(a, |a| - 1);
      AllPointsRemove(b, j);
      MultisetCancelSub(multiset(Without(a, |a| - 1)), multiset(Without(b, j)), b[j]);
      AllPointsSubMultiset(Without(a, |a| - 1), Without(b, j));
    }
  }

  lemma MultisetCancelSub<T>(x: multiset<T>, y: multiset<T>, e: T)
    requires x + multiset{e} <= y + multiset{e}
    ensures x <= y
  {
    forall v
      ensures x[v] <= y[v]
    {
      assert (x + multiset{e})[v] <= (y + multiset{e})[v];
    }
  }

  /** Dropping lines never creates an overlap: the count over some of the
      lines is at most the count over all of them. */
  lemma OverlapCountMonotone(a: seq<Line>, b: seq<Line>)
    requires multiset(a) <= multiset(b)
    ensures OverlapCount(a) <= OverlapCount(b)
  {
    AllPointsSubMultiset(a, b);
    var pa, pb := AllPoints(a), AllPoints(b);
    assert OverlapPoints(pa) <= OverlapPoints(pb) by {
      forall p | p in OverlapPoints(pa)
        ensures p in OverlapPoints(pb)
      {
        assert multiset(pa)[p] <= multiset(pb)[p];
      }
    }
    SubsetCardinality(OverlapPoints(pa), OverlapPoints(pb));
  }

  lemma SubsetCardinality<T>(x: set<T>, y: set<T>)
    requires x <= y
    ensures |x| <= |y|
  {
    assert y == x + (y - x);
  }

  /** A sequence without repeats holds each element at most once. */
  lemma {:induction false} DistinctMultiplicity(s: seq<Point>, p: Point)
    requires forall i, j :: 0 <= i < j < |s| ==> s[i] != s[j]
    ensures multiset(s)[p] <= 1
  {
    if |s| > 0 {
      assert s == [s[0]] + s[1..];
      DistinctMultiplicity(s[1..], p);
      if s[0] == p {
        assert p !in s[1..];
      }
    }
  }

  /** One line never overlaps itself. */
  lemma SingleLineNoOverlap(l: Line)
    ensures OverlapCount([l]) == 0
  {
    assert [l][..0] == [];
    CoveredPointsDistinct(l);
    var points := AllPoints([l]);
    assert points == AllPoints([l][..0]) + CoveredPoints(l);
    forall p | p in points
      ensures multiset(points)[p] <= 1
    {
      DistinctMultiplicity(points, p);
    }
    assert OverlapPoints(points) == {};
  }

  /** How many of the lines cover p, each line counted once per position
      in the list. */
  function Covering(lines: seq<Line>, p: Point): nat
  {
    if |lines| == 0 then 0
    else Covering(lines[..|lines| - 1], p) + (if p in CoveredPoints(lines[|lines| - 1]) then 1 else 0)
  }

  /** Since no line lists a point twice, a point's multiplicity among all
      points is the number of lines that cover it. */
  lemma {:induction false} MultiplicityIsCovering(lines: seq<Line>, p: Point)
    ensures multiset(AllPoints(lines))[p] == Covering(lines, p)
  {
    if |lines| > 0 {
      var init := lines[..|lines| - 1];
      var last := lines[|lines| - 1];
      MultiplicityIsCovering(init, p);
      CoveredPointsDistinct(last);
      DistinctMultiplicity(CoveredPoints(last), p);
      assert multiset(AllPoints(lines)) == multiset(AllPoints(init)) + multiset(CoveredPoints(last));
      if p !in CoveredPoints(last) {
        assert multiset(CoveredPoints(last))[p] == 0;
      }
    }
  }

  /** The overlapping points are exactly the points covered by at least two
      lines. */
  lemma OverlapIsCoveredTwice(lines: seq<Line>)
    ensures forall p :: p in OverlapPoints(AllPoints(lines)) <==> Covering(lines, p) >= 2
  {
    forall p
      ensures p in OverlapPoints(AllPoints(lines)) <==> Covering(lines, p) >= 2
    {
      MultiplicityIsCovering(lines, p);
      if Covering(lines, p) >= 2 {
        assert p in multiset(AllPoints(lines));
      }
    }
  }

  /** A closed form of "the walk passes through p": the step index is read
      off an axis the line moves along. */
  predicate OnWalk(l: Line, p: Point)
  {
    var k := if XDir(l) != 0 then (p.x - l.start.x) * XDir(l) else (p.y - l.start.y) * YDir(l);
    0 <= k < Cover(l) && p == PointAt(l, k)
  }

  /** Stepping k times by a unit and reading the distance back along the
      same unit gives k. */
  lemma UnitStepBack(k: int, d: int)
    requires d == 1 || d == -1
    ensures (k * d) * d == k
  {
  }

  lemma PointAtIsOnWalk(l: Line, k: int)
    requires 0 <= k < Cover(l)
    ensures OnWalk(l, PointAt(l, k))
  {
    var p := PointAt(l, k);
    if XDir(l) != 0 {
      assert p.x - l.start.x == k * XDir(l);
      UnitStepBack(k, XDir(l));
    } else if YDir(l) != 0 {
      assert p.y - l.start.y == k * YDir(l);
      UnitStepBack(k, YDir(l));
    }
  }

  lemma OnWalkIsCovered(l: Line, p: Point)
    ensures p in CoveredPoints(l) <==> OnWalk(l, p)
  {
    var points := CoveredPoints(l);
    if p in points {
      var k :| 0 <= k < |points| && points[k] == p;
      PointAtIsOnWalk(l, k);
    }
    if OnWalk(l, p) {
      var k := if XDir(l) != 0 then (p.x - l.start.x) * XDir(l) else (p.y - l.start.y) * YDir(l);
      assert points[k] == p;
    }
  }

  /** One more line adds one to the count of every point on its walk. */
  lemma CoveringAppendLine(lines: seq<Line>, l: Line, p: Point)
    ensures Covering(lines + [l], p) == Covering(lines, p) + (if OnWalk(l, p) then 1 else 0)
  {
    assert (lines + [l])[..|lines|] == lines;
    OnWalkIsCovered(l, p);
  }

  /** `filter { it.isVertical() || it.isHorizontal() }`. */
  function HorizontalOrVertical(lines: seq<Line>): seq<Line>
  {
    if |lines| == 0 then []
    else
      var last := lines[|lines| - 1];
      if IsVertical(last) || IsHorizontal(last) then HorizontalOrVertical(lines[..|lines| - 1]) + [last]
      else HorizontalOrVertical(lines[..|lines| - 1])
  }

  /** Each line is kept as often as it occurs if it is vertical or
      horizontal, and dropped otherwise. */
  lemma {:induction false} HorizontalOrVerticalMultiset(lines: seq<Line>)
    ensures forall l :: multiset(HorizontalOrVertical(lines))[l]
                        == if IsVertical(l) || IsHorizontal(l) then multiset(lines)[l] else 0
  {
    if |lines| > 0 {
      var last := lines[|lines| - 1];
      assert lines == lines[..|lines| - 1] + [last];
      HorizontalOrVerticalMultiset(lines[..|lines| - 1]);
    }
  }

  /** The filter keeps the order of the lines: filtering a concatenation
      filters each part in place. With `SingleLineKept` this fixes the
      result, order included. (The overlap count does not depend on the
      order anyway, by `OverlapCountReordered`.) */
  lemma {:induction false} HorizontalOrVerticalKeepsOrder(a: seq<Line>, b: seq<Line>)
    ensures HorizontalOrVertical(a + b) == HorizontalOrVertical(a) + HorizontalOrVertical(b)
    decreases |b|
  {
    if |b| > 0 {
      var init := b[..|b| - 1];
      var last := b[|b| - 1];
      assert (a + b)[..|a + b| - 1] == a + init;
      assert (a + b)[|a + b| - 1] == last;
      HorizontalOrVerticalKeepsOrder(a, init);
    } else {
      assert a + b == a;
    }
  }

  /** A single line is kept exactly when it is vertical or horizontal. */
  lemma SingleLineKept(l: Line)
    ensures HorizontalOrVertical([l]) == if IsVertical(l) || IsHorizontal(l) then [l] else []
  {
    assert [l][..0] == [];
  }

  /** The part 1 count, over the horizontal and vertical lines only, never
      exceeds the part 2 count over all lines. */
  lemma HorizontalOrVerticalCountsFewer(lines: seq<Line>)
    ensures OverlapCount(HorizontalOrVertical(lines)) <= OverlapCount(lines)
  {
    var kept := HorizontalOrVertical(lines);
    HorizontalOrVerticalMultiset(lines);
    assert multiset(kept) <= multiset(lines) by {
      forall l
        ensures multiset(kept)[l] <= multiset(lines)[l]
      {
      }
    }
    OverlapCountMonotone(kept, lines);
  }
}
