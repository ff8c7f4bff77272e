/** Day 1, "Sonar Sweep": counting how often a depth measurement, or the sum
    of a three-measurement window, is larger than the one before it. */
module SonarSweep {
  import opened Outcomes

  /** The number of positions s (1 <= s < |depths|) whose measurement is
      strictly larger than the one at s - 1; defined over prefixes, in the
      order the report is scanned. */
  function IncreaseCount(depths: seq<int>): (n: nat)
    ensures n <= if |depths| == 0 then 0 else |depths| - 1
  {
    if |depths| < 2 then 0
    else
      IncreaseCount(depths[..|depths| - 1])
      + (if depths[|depths| - 1] > depths[|depths| - 2] then 1 else 0)
  }

  /** Position s holds a measurement larger than the one before it. */
  predicate IncreasedAt(depths: seq<int>, s: int)
    requires 1 <= s < |depths|
  {
    depths[s] > depths[s - 1]
  }

  /** The positions at which the report says "(increased)". */
  ghost function IncreasedPositions(depths: seq<int>): set<int>
  {
    set s | 1 <= s < |depths| && IncreasedAt(depths, s)
  }

  /** The count is exactly the number of increased positions. */
  lemma {:induction false} IncreaseCountIsPositionCount(depths: seq<int>)
    ensures IncreaseCount(depths) == |IncreasedPositions(depths)|
  {
    if |depths| < 2 {
      assert IncreasedPositions(depths) == {};
    } else {
      var n := |depths|;
      var prefix := depths[..n - 1];
      IncreaseCountIsPositionCount(prefix);
      if depths[n - 1] > depths[n - 2] {
        assert IncreasedPositions(depths) == IncreasedPositions(prefix) + {n - 1};
      } else {
        assert IncreasedPositions(depths) == IncreasedPositions(prefix);
      }
    }
  }

  /** A measurement that is not larger than the last one (equal included)
      falls into the "decreased" branch and adds nothing. */
  lemma NotLargerAddsNothing(depths: seq<int>, next: int)
    requires |depths| > 0 && next <= depths[|depths| - 1]
    ensures IncreaseCount(depths + [next]) == IncreaseCount(depths)
  {
    assert (depths + [next])[..|depths|] == depths;
  }

  /** A strictly larger measurement adds exactly one. */
  lemma LargerAddsOne(depths: seq<int>, next: int)
    requires |depths| > 0 && next > depths[|depths| - 1]
    ensures IncreaseCount(depths + [next]) == IncreaseCount(depths) + 1
  {
    assert (depths + [next])[..|depths|] == depths;
  }

  /** Extending the scanned prefix by position k adds one exactly when k is
      an increase. */
  lemma PrefixStep(depths: seq<int>, k: nat)
    requires 1 <= k < |depths|
    ensures IncreaseCount(depths[..k + 1])
         == IncreaseCount(depths[..k]) + (if depths[k] > depths[k - 1] then 1 else 0)
  {
    assert depths[..k + 1][..k] == depths[..k];
  }

  /** Part 1: scans the report and counts the increases. */
  method SolveSonarSweepPart1(input: seq<int>) returns (increasedCount: nat)
    ensures increasedCount == IncreaseCount(input)
  {
    increasedCount := 0;
    for s := 0 to |input|
      invariant increasedCount == IncreaseCount(input[..s])
    {
      if s == 0 {
        // no previous measurement
        continue;
      }
      assert input[..s + 1][..s] == input[..s];
      var previous := input[s - 1];
      var current := input[s];
      if current > previous {
        increasedCount := increasedCount + 1;
      }
    }
    assert input[..|input|] == input;
  }

  /** `List.getOrNull`: the element at `index`, or null past either end. */
  function GetOrNull(input: seq<int>, index: int): (r: Option<int>)
    ensures r.Some? <==> 0 <= index < |input|
    ensures r.Some? ==> r.value == input[index]
  {
    if 0 <= index < |input| then Some(input[index]) else None
  }

  /** The sum of the window that starts at measurement k. */
  function WindowSum(depths: seq<int>, k: nat): int
    requires k + 2 < |depths|
  {
    depths[k] + depths[k + 1] + depths[k + 2]
  }

  /** The window sums in order: one per start position that has two more
      measurements after it. */
  function WindowSums(depths: seq<int>): (sums: seq<int>)
    ensures |sums| == if |depths| <= 2 then 0 else |depths| - 2
  {
    seq(if |depths| <= 2 then 0 else |depths| - 2, k requires 0 <= k < |depths| - 2 => WindowSum(depths, k))
  }

  /** Builds the running window sums with the three moving indices w1, w2
      and w3; w3 always equals the loop index, so the null check that would
      stop the loop early never succeeds. */
  method SlidingWindowSums(input: seq<int>) returns (runningSum: seq<int>)
    ensures |runningSum| == if |input| <= 2 then 0 else |input| - 2
    ensures forall k :: 0 <= k < |runningSum| ==> runningSum[k] == input[k] + input[k + 1] + input[k + 2]
  {
    runningSum := [];
    var w1, w2, w3 := 0, 1, 2;
    var i := w3;
    while i < |input|
      invariant 2 <= i && (|input| >= 2 ==> i <= |input|) && (|input| < 2 ==> i == 2)
      invariant w1 == i - 2 && w2 == i - 1 && w3 == i
      invariant |runningSum| == i - 2
      invariant forall k :: 0 <= k < |runningSum| ==> runningSum[k] == input[k] + input[k + 1] + input[k + 2]
      decreases |input| - i
    {
      var m1 := GetOrNull(input, w1);
      var m2 := GetOrNull(input, w2);
      var m3 := GetOrNull(input, w3);
      if m1.None? || m2.None? || m3.None? {
        break;
      }
      var sum := m1.value + m2.value + m3.value;
      runningSum := runningSum + [sum];
      w1, w2, w3 := w1 + 1, w2 + 1, w3 + 1;
      i := i + 1;
    }
  }

  /** Part 2: counts the window sums that are larger than the previous sum;
      "no change" and "decreased" add nothing. */
  method SolveSonarSweepPart2(input: seq<int>) returns (increasedCount: nat)
    ensures increasedCount == IncreaseCount(WindowSums(input))
  {
    var runningSum := SlidingWindowSums(input);
    assert runningSum == WindowSums(input);
    increasedCount := 0;
    for s := 0 to |runningSum|
      invariant increasedCount == IncreaseCount(runningSum[..s])
    {
      if s == 0 {
        // no previous sum
        continue;
      }
      assert runningSum[..s + 1][..s] == runningSum[..s];
      var previous := runningSum[s - 1];
      var current := runningSum[s];
      if current > previous {
        increasedCount := increasedCount + 1;
      } else if current == previous {
        // no change
      } else {
        // decreased
      }
    }
    assert runningSum[..|runningSum|] == runningSum;
  }

  /** Two consecutive windows share two measurements, so the later sum is
      larger exactly when the measurement it adds exceeds the one it drops. */
  lemma WindowIncreaseIsSkipComparison(depths: seq<int>)
    ensures IncreasedPositions(WindowSums(depths))
         == set k | 1 <= k && k + 2 < |depths| && SkipIncreasedAt(depths, k)
  {
  }

  /** The measurement two after k exceeds the one just before k. */
  predicate SkipIncreasedAt(depths: seq<int>, k: int)
    requires 1 <= k && k + 2 < |depths|
  {
    depths[k + 2] > depths[k - 1]
  }

  /** The ten-measurement report documented for the puzzle. */
  function ExampleReport(): seq<int>
  {
    [199, 200, 208, 210, 200, 207, 240, 269, 260, 263]
  }

  /** The documented window sums, from 607 to 792. */
  lemma ExampleWindows()
    ensures WindowSums(ExampleReport()) == [607, 618, 618, 617, 647, 716, 769, 792]
  {
  }

  lemma ExampleIncreases()
    ensures IncreaseCount(ExampleReport()) == 7
  {
    var r := ExampleReport();
    for k := 1 to 10
      invariant IncreaseCount(r[..k]) == [0, 0, 1, 2, 3, 3, 4, 5, 6, 6, 7][k]
    {
      PrefixStep(r, k);
    }
    assert r[..10] == r;
  }

  lemma ExampleWindowIncreases()
    ensures IncreaseCount(WindowSums(ExampleReport())) == 5
  {
    ExampleWindows();
    var w: seq<int> := [607, 618, 618, 617, 647, 716, 769, 792];
    for k := 1 to 8
      invariant IncreaseCount(w[..k]) == [0, 0, 1, 1, 1, 2, 3, 4, 5][k]
    {
      PrefixStep(w, k);
    }
    assert w[..8] == w;
  }

  /** The documented answers: 7 increases, 5 window-sum increases. */
  lemma ExampleAnswers()
    ensures IncreaseCount(ExampleReport()) == 7
    ensures IncreaseCount(WindowSums(ExampleReport())) == 5
  {
    ExampleIncreases();
    ExampleWindowIncreases();
  }
}
