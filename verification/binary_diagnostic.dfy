/** Day 3, "Binary Diagnostic": gamma and epsilon rates from the most and
    least common bit of each column, and the oxygen generator and CO2
    scrubber ratings from filtering the report column by column. */
module BinaryDiagnostic {
  import opened Outcomes

  predicate IsBit(b: int)
  {
    b == 0 || b == 1
  }

  predicate IsBits(bits: seq<int>)
  {
    forall i :: 0 <= i < |bits| ==> IsBit(bits[i])
  }

  /** Every row has the length of the first: the only shape `transpose`
      handles without an index error. */
  predicate IsRectangular<T>(m: seq<seq<T>>)
  {
    forall r :: 0 <= r < |m| ==> |m[r]| == |m[0]|
  }

  predicate IsBitMatrix(m: seq<seq<int>>)
  {
    forall r :: 0 <= r < |m| ==> IsBits(m[r])
  }

  // ---------------------------------------------------------------------
  // transpose

  /** `maxOf { it.size }`: the length of the longest row. */
  function MaxRowLength<T>(m: seq<seq<T>>): (w: nat)
    requires |m| > 0
    ensures forall r :: 0 <= r < |m| ==> |m[r]| <= w
    ensures exists r :: 0 <= r < |m| && |m[r]| == w
  {
    if |m| == 1 then |m[0]|
    else
      var rest := MaxRowLength(m[1..]);
      if |m[0]| > rest then |m[0]| else rest
  }

  /** `ArrayList.add(index, element)`: inserts before position `index`. */
  function InsertAt<T>(s: seq<T>, index: nat, x: T): (r: seq<T>)
    requires index <= |s|
    ensures |r| == |s| + 1 && r[index] == x
    ensures forall j :: 0 <= j < index ==> r[j] == s[j]
    ensures forall j :: index < j < |r| ==> r[j] == s[j - 1]
  {
    s[..index] + [x] + s[index..]
  }

  /** Fills one list per column, inserting the element of row r at position
      r of its column's list. `maxOf` throws on an empty matrix. */
  method Transpose<T>(m: seq<seq<T>>) returns (r: Result<seq<seq<T>>>)
    requires IsRectangular(m)
    ensures |m| == 0 <==> r == Err(NoSuchElement)
    ensures |m| > 0 ==> r.Ok? && |r.value| == |m[0]|
    ensures |m| > 0 ==> forall c :: 0 <= c < |m[0]| ==> |r.value[c]| == |m|
    ensures |m| > 0 ==> forall c, row :: 0 <= c < |m[0]| && 0 <= row < |m| ==> r.value[c][row] == m[row][c]
  {
    if |m| == 0 {
      return Err(NoSuchElement);
    }
    var width := MaxRowLength(m);
    var transposed: seq<seq<T>> := [];
    for i := 1 to width + 1
      invariant |transposed| == i - 1
      invariant forall c :: 0 <= c < |transposed| ==> transposed[c] == []
    {
      transposed := transposed + [[]];
    }
    for rowIndex := 0 to |m|
      invariant |transposed| == width
      invariant forall c :: 0 <= c < width ==> |transposed[c]| == rowIndex
      invariant forall c, q :: 0 <= c < width && 0 <= q < rowIndex ==> transposed[c][q] == m[q][c]
    {
      var row := m[rowIndex];
      for colIndex := 0 to |row|
        invariant |transposed| == width
        invariant forall c :: 0 <= c < colIndex ==> |transposed[c]| == rowIndex + 1
        invariant forall c :: colIndex <= c < width ==> |transposed[c]| == rowIndex
        invariant forall c, q :: 0 <= c < colIndex && 0 <= q <= rowIndex ==> transposed[c][q] == m[q][c]
        invariant forall c, q :: colIndex <= c < width && 0 <= q < rowIndex ==> transposed[c][q] == m[q][c]
      {
        transposed := transposed[colIndex := InsertAt(transposed[colIndex], rowIndex, row[colIndex])];
      }
    }
    return Ok(transposed);
  }

  // ---------------------------------------------------------------------
  // counting bits

  /** Occurrences of `b` in `bits` (`groupingBy { it }.eachCount()[b]`,
      with an absent key read as 0). */
  function Count(bits: seq<int>, b: int): (n: nat)
    ensures n <= |bits|
    ensures n > 0 <==> b in bits
  {
    multiset(bits)[b]
  }

  /** In a sequence of bits, the zeros and the ones account for every
      element. */
  lemma {:induction false} CountsPartition(bits: seq<int>)
    requires IsBits(bits)
    ensures Count(bits, 0) + Count(bits, 1) == |bits|
  {
    if |bits| > 0 {
      CountsPartition(bits[1..]);
      assert bits == [bits[0]] + bits[1..];
    }
  }

  /** `maxByOrNull { it.value }!!.key` over the bit counts. The counts map
      lists its keys in order of first occurrence and `maxByOrNull` keeps
      the first of equal maxima, so a tie yields the column's first bit. */
  function MostFrequent(col: seq<int>): (b: int)
    requires |col| > 0 && IsBits(col)
    ensures b in col && IsBit(b)
    ensures forall v :: Count(col, v) <= Count(col, b)
    ensures Count(col, 1 - b) == Count(col, b) ==> b == col[0]
  {
    CountsPartition(col);
    var first := col[0];
    var second := 1 - first;
    if Count(col, second) > Count(col, first) then second else first
  }

  /** `minByOrNull { it.value }!!.key` over the bit counts: only bits that
      occur are keys; a tie again yields the column's first bit. */
  function LeastFrequent(col: seq<int>): (b: int)
    requires |col| > 0 && IsBits(col)
    ensures b in col && IsBit(b)
    ensures forall v :: v in col ==> Count(col, b) <= Count(col, v)
    ensures Count(col, 1 - b) == Count(col, b) ==> b == col[0]
  {
    CountsPartition(col);
    var first := col[0];
    var second := 1 - first;
    if 0 < Count(col, second) < Count(col, first) then second else first
  }

  /** When both bits occur and are not tied, the least common bit is the
      complement of the most common one. */
  lemma LeastIsComplementOfMost(col: seq<int>)
    requires |col| > 0 && IsBits(col)
    requires 0 in col && 1 in col && Count(col, 0) != Count(col, 1)
    ensures LeastFrequent(col) == 1 - MostFrequent(col)
  {
  }

  /** On a tie, and on a column holding one bit value only, both rates take
      the same bit, so the complement shortcut would differ there. */
  lemma SameBitWhenTiedOrUniform(col: seq<int>)
    requires |col| > 0 && IsBits(col)
    requires Count(col, 0) == Count(col, 1) || !(0 in col && 1 in col)
    ensures LeastFrequent(col) == MostFrequent(col)
  {
    CountsPartition(col);
  }

  // ---------------------------------------------------------------------
  // fromBitsToInt

  function Pow2(n: nat): (p: nat)
    ensures p >= 1
  {
    if n == 0 then 1 else 2 * Pow2(n - 1)
  }

  /** The digits read most significant first, as `Integer.parseInt(_, 2)`
      accumulates them. */
  function BitsValue(bits: seq<int>): (v: nat)
    requires IsBits(bits)
    ensures v < Pow2(|bits|)
  {
    if |bits| == 0 then 0
    else 2 * BitsValue(bits[..|bits| - 1]) + bits[|bits| - 1]
  }

  /** Positional reference: bit i weighs 2^(|bits| - 1 - i). */
  function PositionalValue(bits: seq<int>): int
  {
    if |bits| == 0 then 0
    else bits[0] * Pow2(|bits| - 1) + PositionalValue(bits[1..])
  }

  lemma {:induction false} PositionalAppend(bits: seq<int>, b: int)
    ensures PositionalValue(bits + [b]) == 2 * PositionalValue(bits) + b
  {
    if |bits| > 0 {
      assert (bits + [b])[1..] == bits[1..] + [b];
      PositionalAppend(bits[1..], b);
      assert bits[0] * Pow2(|bits|) == 2 * (bits[0] * Pow2(|bits| - 1));
    }
  }

  /** The big-endian value is the sum of b[i] * 2^(|bits| - 1 - i). */
  lemma {:induction false} BitsValueIsPositional(bits: seq<int>)
    requires IsBits(bits)
    ensures BitsValue(bits) == PositionalValue(bits)
  {
    if |bits| > 0 {
      var init := bits[..|bits| - 1];
      BitsValueIsPositional(init);
      PositionalAppend(init, bits[|bits| - 1]);
      assert init + [bits[|bits| - 1]] == bits;
    }
  }

  /** `joinToString("")` then `Integer.parseInt(_, 2)`: the empty string is
      not a number. */
  function FromBitsToInt(bits: seq<int>): (r: Result<nat>)
    requires IsBits(bits)
    ensures r.Err? <==> |bits| == 0
    ensures r.Err? ==> r.failure == NumberFormat
    ensures r.Ok? ==> r.value == PositionalValue(bits) && r.value < Pow2(|bits|)
  {
    if |bits| == 0 then Err(NumberFormat)
    else
      BitsValueIsPositional(bits);
      Ok(BitsValue(bits))
  }

  // ---------------------------------------------------------------------
  // part 1: power consumption

  /** Column c of a matrix whose rows all reach past c: one entry per row,
      in row order. */
  function Column(m: seq<seq<int>>, c: nat): (col: seq<int>)
    requires forall r :: 0 <= r < |m| ==> c < |m[r]|
    ensures |col| == |m|
    ensures forall r :: 0 <= r < |m| ==> col[r] == m[r][c]
  {
    seq(|m|, r requires 0 <= r < |m| => m[r][c])
  }

  lemma ColumnIsBits(m: seq<seq<int>>, c: nat)
    requires IsBitMatrix(m)
    requires forall r :: 0 <= r < |m| ==> c < |m[r]|
    ensures IsBits(Column(m, c))
  {
  }

  /** The gamma rate's bits: each column's most common bit. */
  function GammaBits(m: seq<seq<int>>): (gamma: seq<int>)
    requires |m| > 0 && IsRectangular(m) && IsBitMatrix(m)
    ensures |gamma| == |m[0]| && IsBits(gamma)
  {
    seq(|m[0]|, c requires 0 <= c < |m[0]| => ColumnIsBits(m, c); MostFrequent(Column(m, c)))
  }

  /** The epsilon rate's bits: each column's least common bit. */
  function EpsilonBits(m: seq<seq<int>>): (epsilon: seq<int>)
    requires |m| > 0 && IsRectangular(m) && IsBitMatrix(m)
    ensures |epsilon| == |m[0]| && IsBits(epsilon)
  {
    seq(|m[0]|, c requires 0 <= c < |m[0]| => ColumnIsBits(m, c); LeastFrequent(Column(m, c)))
  }

  /** Gamma times epsilon. An empty report fails in `transpose`, rows of
      width 0 fail in `parseInt`. */
  method PowerConsumption(report: seq<seq<int>>) returns (power: Result<int>)
    requires IsRectangular(report) && IsBitMatrix(report)
    ensures |report| == 0 ==> power == Err(NoSuchElement)
    ensures |report| > 0 && |report[0]| == 0 ==> power == Err(NumberFormat)
    ensures |report| > 0 && |report[0]| > 0 ==>
              power == Ok(BitsValue(GammaBits(report)) * BitsValue(EpsilonBits(report)))
  {
    var transposed := Transpose(report);
    if transposed.Err? {
      return Err(transposed.failure);
    }
    var t := transposed.value;
    forall c | 0 <= c < |t|
      ensures t[c] == Column(report, c)
    {
    }
    forall c | 0 <= c < |t|
      ensures |t[c]| > 0 && IsBits(t[c])
    {
      ColumnIsBits(report, c);
    }
    var commonEntries := seq(|t|, c requires 0 <= c < |t| => MostFrequent(t[c]));
    var commonEntriesMin := seq(|t|, c requires 0 <= c < |t| => LeastFrequent(t[c]));
    assert commonEntries == GammaBits(report);
    assert commonEntriesMin == EpsilonBits(report);
    var gammaRate := FromBitsToInt(commonEntries);
    var epsilonRate := FromBitsToInt(commonEntriesMin);
    if gammaRate.Err? {
      return Err(gammaRate.failure);
    }
    BitsValueIsPositional(commonEntries);
    BitsValueIsPositional(commonEntriesMin);
    return Ok(gammaRate.value * epsilonRate.value);
  }

  // ---------------------------------------------------------------------
  // part 2: life support rating

  /** The lambda handed to `getMostCommonBit`: `maxByOrNull` for the oxygen
      generator, `minByOrNull` for the CO2 scrubber. */
  datatype Comparator = ByMaxCount | ByMinCount

  /** `getMostCommonBit`: on equal counts of 0 and 1 (absent keys compare as
      null == null) it looks up `defaultBit` among the present keys, which
      throws when the column is empty; otherwise the comparator decides. */
  function GetMostCommonBit(col: seq<int>, defaultBit: int, comparator: Comparator): (r: Result<int>)
    requires IsBits(col)
    ensures |col| == 0 ==> r == Err(NoSuchElement)
    ensures |col| > 0 && IsBit(defaultBit) ==> r.Ok? && r.value in col && IsBit(r.value)
    ensures Count(col, 0) == Count(col, 1) && defaultBit in col ==> r == Ok(defaultBit)
    ensures Count(col, 0) != Count(col, 1) && comparator == ByMaxCount ==>
              r.Ok? && Count(col, r.value) > Count(col, 1 - r.value)
    ensures Count(col, 0) != Count(col, 1) && comparator == ByMinCount ==>
              r.Ok? && r.value in col && (Count(col, r.value) < Count(col, 1 - r.value) || 1 - r.value !in col)
  {
    CountsPartition(col);
    if Count(col, 0) == Count(col, 1) then
      if defaultBit in col then Ok(defaultBit) else Err(NoSuchElement)
    else if comparator == ByMaxCount then
      Ok(MostFrequent(col))
    else
      Ok(LeastFrequent(col))
  }

  /** The first row adds its own bit to the counts of the column. */
  lemma ColumnCount(rows: seq<seq<int>>, i: nat, b: int)
    requires |rows| > 0 && forall r :: 0 <= r < |rows| ==> i < |rows[r]|
    ensures Count(Column(rows, i), b) == Count(Column(rows[1..], i), b) + (if rows[0][i] == b then 1 else 0)
  {
    assert Column(rows, i) == [rows[0][i]] + Column(rows[1..], i);
  }

  /** `filter { it[i] == b }`: the rows whose bit i is b, in their order. */
  function KeepMatching(rows: seq<seq<int>>, i: nat, b: int): (kept: seq<seq<int>>)
    requires forall r :: 0 <= r < |rows| ==> i < |rows[r]|
    ensures |kept| == Count(Column(rows, i), b)
    ensures forall r :: 0 <= r < |kept| ==> i < |kept[r]| && kept[r][i] == b
    ensures IsSubsequence(kept, rows)
  {
    if |rows| == 0 then []
    else
      ColumnCount(rows, i, b);
      if rows[0][i] == b then [rows[0]] + KeepMatching(rows[1..], i, b)
      else KeepMatching(rows[1..], i, b)
  }

  /** `a` is `b` with some elements removed, the rest kept in order. */
  ghost predicate IsSubsequence<T>(a: seq<T>, b: seq<T>)
    decreases |b|
  {
    if |a| == 0 then true
    else if |b| == 0 then false
    else (a[0] == b[0] && IsSubsequence(a[1..], b[1..])) || IsSubsequence(a, b[1..])
  }

  lemma {:induction false} SubsequenceIsTransitive<T>(a: seq<T>, b: seq<T>, c: seq<T>)
    requires IsSubsequence(a, b) && IsSubsequence(b, c)
    ensures IsSubsequence(a, c)
    decreases |c|
  {
    if |a| > 0 && |c| > 0 {
      assert |b| > 0;
      if b[0] == c[0] && IsSubsequence(b[1..], c[1..]) {
        if a[0] == b[0] && IsSubsequence(a[1..], b[1..]) {
          SubsequenceIsTransitive(a[1..], b[1..], c[1..]);
        } else {
          SubsequenceIsTransitive(a, b[1..], c[1..]);
        }
      } else {
        SubsequenceIsTransitive(a, b, c[1..]);
      }
    }
  }

  lemma {:induction false} SubsequenceElements<T>(a: seq<T>, b: seq<T>)
    requires IsSubsequence(a, b)
    ensures forall x :: x in a ==> x in b
    decreases |b|
  {
    if |a| > 0 {
      if a[0] == b[0] && IsSubsequence(a[1..], b[1..]) {
        SubsequenceElements(a[1..], b[1..]);
        assert a == [a[0]] + a[1..];
      } else {
        SubsequenceElements(a, b[1..]);
      }
    }
  }

  lemma {:induction false} SubsequenceOfItself<T>(a: seq<T>)
    ensures IsSubsequence(a, a)
  {
    if |a| > 0 {
      SubsequenceOfItself(a[1..]);
    }
  }

  /** Every row has the given width and holds bits. */
  predicate RowsOfWidth(rows: seq<seq<int>>, width: nat)
  {
    forall r :: 0 <= r < |rows| ==> |rows[r]| == width && IsBits(rows[r])
  }

  /** One pass of the filtering loop of `part2` at column i: choose the
      column's bit and keep the rows that carry it. */
  function SiftStep(rows: seq<seq<int>>, i: nat, width: nat, defaultBit: int, comparator: Comparator): (r: Result<seq<seq<int>>>)
    requires RowsOfWidth(rows, width) && i < width
    ensures r.Ok? ==> RowsOfWidth(r.value, width) && IsSubsequence(r.value, rows)
    ensures r.Ok? ==> forall a, b :: 0 <= a < |r.value| && 0 <= b < |r.value| ==> r.value[a][i] == r.value[b][i]
    ensures |rows| > 0 && IsBit(defaultBit) ==> r.Ok? && |r.value| > 0
    ensures |rows| == 0 ==> r == Err(NoSuchElement)
  {
    ColumnIsBits(rows, i);
    var chosen := GetMostCommonBit(Column(rows, i), defaultBit, comparator);
    if chosen.Err? then Err(chosen.failure)
    else
      KeepMatchingRows(rows, i, width, chosen.value);
      Ok(KeepMatching(rows, i, chosen.value))
  }

  /** The filtering loop of `part2` from column i on. */
  function Sift(rows: seq<seq<int>>, i: nat, width: nat, defaultBit: int, comparator: Comparator): Result<seq<seq<int>>>
    requires RowsOfWidth(rows, width) && i <= width
    decreases width - i
  {
    if i == width then Ok(rows)
    else
      match SiftStep(rows, i, width, defaultBit, comparator)
      case Err(f) => Err(f)
      case Ok(kept) => Sift(kept, i + 1, width, defaultBit, comparator)
  }

  /** A filtering step keeps rows of the same width. */
  lemma KeepMatchingRows(rows: seq<seq<int>>, i: nat, width: nat, b: int)
    requires RowsOfWidth(rows, width) && i < width
    ensures RowsOfWidth(KeepMatching(rows, i, b), width)
  {
    SubsequenceElements(KeepMatching(rows, i, b), rows);
    var kept := KeepMatching(rows, i, b);
    forall r | 0 <= r < |kept|
      ensures |kept[r]| == width && IsBits(kept[r])
    {
      assert kept[r] in kept;
    }
  }

  /** All rows agree on their bits from column i on. */
  ghost predicate AgreeFrom(rows: seq<seq<int>>, i: nat)
  {
    forall a, b :: 0 <= a < |rows| && 0 <= b < |rows| && i <= |rows[a]| && i <= |rows[b]| ==>
      rows[a][i..] == rows[b][i..]
  }

  /** A sublist of rows that agree from column i + 1 on and share bit i
      agrees from column i on. */
  lemma AgreeOneMore(kept: seq<seq<int>>, result: seq<seq<int>>, i: nat, width: nat)
    requires RowsOfWidth(kept, width) && i < width
    requires forall a, b :: 0 <= a < |kept| && 0 <= b < |kept| ==> kept[a][i] == kept[b][i]
    requires IsSubsequence(result, kept) && AgreeFrom(result, i + 1)
    ensures AgreeFrom(result, i)
  {
    SubsequenceElements(result, kept);
    forall a, b | 0 <= a < |result| && 0 <= b < |result| && i <= |result[a]| && i <= |result[b]|
      ensures result[a][i..] == result[b][i..]
    {
      assert result[a] in kept && result[b] in kept;
      assert result[a][i..] == [result[a][i]] + result[a][i + 1..];
      assert result[b][i..] == [result[b][i]] + result[b][i + 1..];
    }
  }

  /** All rows agree on their bits in the columns before i. */
  ghost predicate AgreeBefore(rows: seq<seq<int>>, i: nat)
  {
    forall x, y :: x in rows && y in rows && i <= |x| && i <= |y| ==> x[..i] == y[..i]
  }

  /** Rows that agree on the columns before i, filtered down to those that
      share bit i, agree on the columns before i + 1. */
  lemma AgreeBeforeOneMore(rows: seq<seq<int>>, kept: seq<seq<int>>, i: nat, width: nat)
    requires RowsOfWidth(rows, width) && i < width && AgreeBefore(rows, i)
    requires IsSubsequence(kept, rows) && RowsOfWidth(kept, width)
    requires forall a, b :: 0 <= a < |kept| && 0 <= b < |kept| ==> kept[a][i] == kept[b][i]
    ensures AgreeBefore(kept, i + 1)
  {
    SubsequenceElements(kept, rows);
    forall x, y | x in kept && y in kept && i + 1 <= |x| && i + 1 <= |y|
      ensures x[..i + 1] == y[..i + 1]
    {
      var a :| 0 <= a < |kept| && kept[a] == x;
      var b :| 0 <= b < |kept| && kept[b] == y;
      assert x[..i + 1] == x[..i] + [x[i]];
      assert y[..i + 1] == y[..i] + [y[i]];
    }
  }

  /** What one pass of the `part2` loop preserves: a nonempty ordered
      sublist of the report, of full-width rows, agreeing on the columns
      filtered so far, whose remaining filtering gives the same result. */
  lemma SiftStepKeepsLoopFacts(report: seq<seq<int>>, rows: seq<seq<int>>, i: nat, width: nat, defaultBit: int, comparator: Comparator)
    requires RowsOfWidth(rows, width) && |rows| > 0 && i < width && IsBit(defaultBit)
    requires IsSubsequence(rows, report) && AgreeBefore(rows, i)
    ensures var step := SiftStep(rows, i, width, defaultBit, comparator);
      && step.Ok? && |step.value| > 0 && RowsOfWidth(step.value, width)
      && IsSubsequence(step.value, report) && AgreeBefore(step.value, i + 1)
      && Sift(step.value, i + 1, width, defaultBit, comparator) == Sift(rows, i, width, defaultBit, comparator)
  {
    var kept := SiftStep(rows, i, width, defaultBit, comparator).value;
    SubsequenceIsTransitive(kept, rows, report);
    AgreeBeforeOneMore(rows, kept, i, width);
  }

  /** Filtering a nonempty list never empties it: the chosen bit occurs in
      the column, so at least one row carries it. The survivors are an
      order-preserving sublist of the input and agree on every column from
      i on. */
  lemma {:induction false} SiftKeepsARow(rows: seq<seq<int>>, i: nat, width: nat, defaultBit: int, comparator: Comparator)
    requires RowsOfWidth(rows, width) && i <= width && |rows| > 0 && IsBit(defaultBit)
    ensures var sifted := Sift(rows, i, width, defaultBit, comparator);
      && sifted.Ok? && |sifted.value| > 0
      && RowsOfWidth(sifted.value, width)
      && IsSubsequence(sifted.value, rows)
      && AgreeFrom(sifted.value, i)
    decreases width - i
  {
    if i == width {
      SubsequenceOfItself(rows);
    } else {
      var kept := SiftStep(rows, i, width, defaultBit, comparator).value;
      SiftKeepsARow(kept, i + 1, width, defaultBit, comparator);
      var result := Sift(kept, i + 1, width, defaultBit, comparator).value;
      SubsequenceIsTransitive(result, kept, rows);
      AgreeOneMore(kept, result, i, width);
    }
  }

  /** A report of one row passes a filtering step unchanged. */
  lemma SingleRowStep(row: seq<int>, i: nat, defaultBit: int, comparator: Comparator)
    requires IsBits(row) && i < |row| && IsBit(defaultBit)
    ensures SiftStep([row], i, |row|, defaultBit, comparator) == Ok([row])
  {
    var col := Column([row], i);
    assert col == [row[i]];
    ColumnIsBits([row], i);
    var chosen := GetMostCommonBit(col, defaultBit, comparator);
    assert chosen.value == row[i];
    assert [row][1..] == [];
    assert KeepMatching([row], i, row[i]) == [row];
  }

  /** A report of one row is never filtered. */
  lemma {:induction false} SingleRowIsKept(row: seq<int>, i: nat, defaultBit: int, comparator: Comparator)
    requires IsBits(row) && i <= |row| && IsBit(defaultBit)
    ensures Sift([row], i, |row|, defaultBit, comparator) == Ok([row])
    decreases |row| - i
  {
    if i < |row| {
      SingleRowStep(row, i, defaultBit, comparator);
      SingleRowIsKept(row, i + 1, defaultBit, comparator);
    }
  }

  /** The rating a filtering run produces: the first surviving row. */
  function SiftedRating(report: seq<seq<int>>, defaultBit: int, comparator: Comparator): Result<seq<int>>
    requires IsRectangular(report) && IsBitMatrix(report)
  {
    if |report| == 0 then Err(NoSuchElement)
    else
      match Sift(report, 0, |report[0]|, defaultBit, comparator)
      case Err(f) => Err(f)
      case Ok(rows) => if |rows| == 0 then Err(NoSuchElement) else Ok(rows[0])
  }

  /** On a nonempty report the filtering always ends with at least one row,
      every row left is the same bit string, and that string is a row of
      the report: taking the first survivor loses nothing. */
  lemma SurvivorsAreOneRow(report: seq<seq<int>>, defaultBit: int, comparator: Comparator)
    requires IsRectangular(report) && IsBitMatrix(report) && |report| > 0 && IsBit(defaultBit)
    ensures SiftedRating(report, defaultBit, comparator).Ok?
    ensures SiftedRating(report, defaultBit, comparator).value in report
    ensures forall row :: row in Sift(report, 0, |report[0]|, defaultBit, comparator).value ==>
              row == SiftedRating(report, defaultBit, comparator).value
  {
    var width := |report[0]|;
    assert RowsOfWidth(report, width);
    SiftKeepsARow(report, 0, width, defaultBit, comparator);
    var survivors := Sift(report, 0, width, defaultBit, comparator).value;
    SubsequenceElements(survivors, report);
    forall row | row in survivors
      ensures row == survivors[0]
    {
      var k :| 0 <= k < |survivors| && survivors[k] == row;
      assert survivors[k][0..] == survivors[0][0..];
      assert survivors[k][0..] == survivors[k] && survivors[0][0..] == survivors[0];
    }
    assert survivors[0] in survivors;
  }

  /** One of the two filtering loops of `part2`: column by column, keep the
      rows whose bit agrees with the column's chosen bit, then take the
      first row left. */
  method Rating(report: seq<seq<int>>, defaultBit: int, comparator: Comparator) returns (r: Result<seq<int>>)
    requires IsRectangular(report) && IsBitMatrix(report) && IsBit(defaultBit)
    ensures r == SiftedRating(report, defaultBit, comparator)
    ensures |report| == 0 <==> r == Err(NoSuchElement)
    ensures r.Ok? ==> r.value in report
    ensures |report| > 0 ==> r.Ok? && |r.value| == |report[0]| && IsBits(r.value)
  {
    if |report| == 0 {
      return Err(NoSuchElement);
    }
    var width := MaxRowLength(report);
    assert RowsOfWidth(report, width);
    var filteredList := report;
    SubsequenceOfItself(report);
    for i := 0 to width
      invariant RowsOfWidth(filteredList, width) && |filteredList| > 0
      invariant IsSubsequence(filteredList, report)
      invariant Sift(filteredList, i, width, defaultBit, comparator) == Sift(report, 0, width, defaultBit, comparator)
      invariant AgreeBefore(filteredList, i)
    {
      var currentCol := Column(filteredList, i);
      ColumnIsBits(filteredList, i);
      var mostCommonInCol := GetMostCommonBit(currentCol, defaultBit, comparator);
      var kept := KeepMatching(filteredList, i, mostCommonInCol.value);
      assert SiftStep(filteredList, i, width, defaultBit, comparator) == Ok(kept);
      SiftStepKeepsLoopFacts(report, filteredList, i, width, defaultBit, comparator);
      filteredList := kept;
    }
    SubsequenceElements(filteredList, report);
    assert filteredList[0] in filteredList;
    return Ok(filteredList[0]);
  }

  /** O2 rating times CO2 rating. The oxygen generator keeps the most common
      bit (1 on a tie), the CO2 scrubber the least common (0 on a tie). */
  method LifeSupportRating(report: seq<seq<int>>) returns (rating: Result<int>)
    requires IsRectangular(report) && IsBitMatrix(report)
    ensures |report| == 0 ==> rating == Err(NoSuchElement)
    ensures |report| > 0 && |report[0]| == 0 ==> rating == Err(NumberFormat)
    ensures |report| > 0 && |report[0]| > 0 ==>
              && SiftedRating(report, 1, ByMaxCount).Ok?
              && SiftedRating(report, 0, ByMinCount).Ok?
              && IsBits(SiftedRating(report, 1, ByMaxCount).value)
              && IsBits(SiftedRating(report, 0, ByMinCount).value)
              && rating == Ok(BitsValue(SiftedRating(report, 1, ByMaxCount).value)
                              * BitsValue(SiftedRating(report, 0, ByMinCount).value))
  {
    var o2Lists := Rating(report, 1, ByMaxCount);
    if o2Lists.Err? {
      return Err(o2Lists.failure);
    }
    var cO2Lists := Rating(report, 0, ByMinCount);
    var o2GeneratorRating := FromBitsToInt(o2Lists.value);
    var c02ScrubbingRating := FromBitsToInt(cO2Lists.value);
    if o2GeneratorRating.Err? {
      return Err(o2GeneratorRating.failure);
    }
    BitsValueIsPositional(o2Lists.value);
    BitsValueIsPositional(cO2Lists.value);
    return Ok(o2GeneratorRating.value * c02ScrubbingRating.value);
  }

  /** The twelve-row report documented for the puzzle. */
  function ExampleReport(): seq<seq<int>>
  {
    [[0, 0, 1, 0, 0], [1, 1, 1, 1, 0], [1, 0, 1, 1, 0], [1, 0, 1, 1, 1],
     [1, 0, 1, 0, 1], [0, 1, 1, 1, 1], [0, 0, 1, 1, 1], [1, 1, 1, 0, 0],
     [1, 0, 0, 0, 0], [1, 1, 0, 0, 1], [0, 0, 0, 1, 0], [0, 1, 0, 1, 0]]
  }

  /** The documented rates read as numbers: 10110 is 22 and 01001 is 9. */
  lemma ExampleRateValues()
    ensures FromBitsToInt([1, 0, 1, 1, 0]) == Ok(22)
    ensures FromBitsToInt([0, 1, 0, 0, 1]) == Ok(9)
  {
    assert PositionalValue([0]) == 0 && PositionalValue([1]) == 1;
    assert PositionalValue([1, 0]) == 2 && PositionalValue([0, 1]) == 1;
    assert PositionalValue([1, 1, 0]) == 6 && PositionalValue([0, 0, 1]) == 1;
    assert PositionalValue([0, 1, 1, 0]) == 6 && PositionalValue([1, 0, 0, 1]) == 9;
  }

  /** The example's columns, as `transpose` lists them. */
  function ExampleColumns(): seq<seq<int>>
  {
    [[0, 1, 1, 1, 1, 0, 0, 1, 1, 1, 0, 0],
     [0, 1, 0, 0, 0, 1, 0, 1, 0, 1, 0, 1],
     [1, 1, 1, 1, 1, 1, 1, 1, 0, 0, 0, 0],
     [0, 1, 1, 1, 0, 1, 1, 0, 0, 0, 1, 1],
     [0, 0, 0, 1, 1, 1, 1, 0, 0, 1, 0, 0]]
  }

  /** A column with `ones` ones that is not tied: the majority bit is the
      most common, its complement the least common. */
  lemma UntiedColumnBits(col: seq<int>, ones: nat)
    requires |col| > 0 && IsBits(col)
    requires multiset(col)[1] == ones && 0 < ones < |col| && 2 * ones != |col|
    ensures MostFrequent(col) == (if 2 * ones > |col| then 1 else 0)
    ensures LeastFrequent(col) == (if 2 * ones > |col| then 0 else 1)
  {
    CountsPartition(col);
  }

  lemma ExampleTransposed()
    ensures forall c | 0 <= c < 5 :: Column(ExampleReport(), c) == ExampleColumns()[c]
  {
  }

  lemma ExampleColumnShapes()
    ensures forall c | 0 <= c < 5 :: IsBits(ExampleColumns()[c]) && |ExampleColumns()[c]| == 12
  {
  }

  // The example's columns hold 7, 5, 8, 7 and 5 ones out of 12, so none is
  // tied: the most common bits are 1 0 1 1 0, the least common 0 1 0 0 1.
  lemma ExampleColumn0Ones() ensures multiset(ExampleColumns()[0])[1] == 7 {}
  lemma ExampleColumn0Bits()
    ensures |ExampleColumns()[0]| > 0 && IsBits(ExampleColumns()[0])
    ensures MostFrequent(ExampleColumns()[0]) == 1 && LeastFrequent(ExampleColumns()[0]) == 0
  {
    ExampleColumnShapes();
    ExampleColumn0Ones();
    UntiedColumnBits(ExampleColumns()[0], 7);
  }

  lemma ExampleColumn1Ones() ensures multiset(ExampleColumns()[1])[1] == 5 {}
  lemma ExampleColumn1Bits()
    ensures |ExampleColumns()[1]| > 0 && IsBits(ExampleColumns()[1])
    ensures MostFrequent(ExampleColumns()[1]) == 0 && LeastFrequent(ExampleColumns()[1]) == 1
  {
    ExampleColumnShapes();
    ExampleColumn1Ones();
    UntiedColumnBits(ExampleColumns()[1], 5);
  }

  lemma ExampleColumn2Ones() ensures multiset(ExampleColumns()[2])[1] == 8 {}
  lemma ExampleColumn2Bits()
    ensures |ExampleColumns()[2]| > 0 && IsBits(ExampleColumns()[2])
    ensures MostFrequent(ExampleColumns()[2]) == 1 && LeastFrequent(ExampleColumns()[2]) == 0
  {
    ExampleColumnShapes();
    ExampleColumn2Ones();
    UntiedColumnBits(ExampleColumns()[2], 8);
  }

  lemma ExampleColumn3Ones() ensures multiset(ExampleColumns()[3])[1] == 7 {}
  lemma ExampleColumn3Bits()
    ensures |ExampleColumns()[3]| > 0 && IsBits(ExampleColumns()[3])
    ensures MostFrequent(ExampleColumns()[3]) == 1 && LeastFrequent(ExampleColumns()[3]) == 0
  {
    ExampleColumnShapes();
    ExampleColumn3Ones();
    UntiedColumnBits(ExampleColumns()[3], 7);
  }

  lemma ExampleColumn4Ones() ensures multiset(ExampleColumns()[4])[1] == 5 {}
  lemma ExampleColumn4Bits()
    ensures |ExampleColumns()[4]| > 0 && IsBits(ExampleColumns()[4])
    ensures MostFrequent(ExampleColumns()[4]) == 0 && LeastFrequent(ExampleColumns()[4]) == 1
  {
    ExampleColumnShapes();
    ExampleColumn4Ones();
    UntiedColumnBits(ExampleColumns()[4], 5);
  }

  lemma ExampleShape()
    ensures |ExampleReport()| == 12 && |ExampleReport()[0]| == 5
    ensures IsRectangular(ExampleReport()) && IsBitMatrix(ExampleReport())
  {
  }

  /** Bit c of each rate is read off column c of the documented report. */
  lemma ExampleRateBit(c: nat)
    requires c < 5
    ensures |ExampleReport()| > 0 && IsRectangular(ExampleReport()) && IsBitMatrix(ExampleReport())
    ensures GammaBits(ExampleReport())[c] == MostFrequent(ExampleColumns()[c])
    ensures EpsilonBits(ExampleReport())[c] == LeastFrequent(ExampleColumns()[c])
  {
    ExampleShape();
    ExampleTransposed();
  }

  lemma FiveElements(s: seq<int>, t: seq<int>)
    requires |s| == 5 && |t| == 5
    requires s[0] == t[0] && s[1] == t[1] && s[2] == t[2] && s[3] == t[3] && s[4] == t[4]
    ensures s == t
  {
  }

  /** The documented gamma rate 10110. */
  lemma ExampleGamma()
    ensures |ExampleReport()| > 0 && IsRectangular(ExampleReport()) && IsBitMatrix(ExampleReport())
    ensures GammaBits(ExampleReport()) == [1, 0, 1, 1, 0]
  {
    ExampleShape();
    ExampleRateBit(0); ExampleColumn0Bits();
    ExampleRateBit(1); ExampleColumn1Bits();
    ExampleRateBit(2); ExampleColumn2Bits();
    ExampleRateBit(3); ExampleColumn3Bits();
    ExampleRateBit(4); ExampleColumn4Bits();
    FiveElements(GammaBits(ExampleReport()), [1, 0, 1, 1, 0]);
  }

  /** The documented epsilon rate 01001. */
  lemma ExampleEpsilon()
    ensures |ExampleReport()| > 0 && IsRectangular(ExampleReport()) && IsBitMatrix(ExampleReport())
    ensures EpsilonBits(ExampleReport()) == [0, 1, 0, 0, 1]
  {
    ExampleShape();
    ExampleRateBit(0); ExampleColumn0Bits();
    ExampleRateBit(1); ExampleColumn1Bits();
    ExampleRateBit(2); ExampleColumn2Bits();
    ExampleRateBit(3); ExampleColumn3Bits();
    ExampleRateBit(4); ExampleColumn4Bits();
    FiveElements(EpsilonBits(ExampleReport()), [0, 1, 0, 0, 1]);
  }

  /** The documented rates as numbers: gamma 22, epsilon 9. */
  lemma ExampleRates()
    ensures |ExampleReport()| > 0 && IsRectangular(ExampleReport()) && IsBitMatrix(ExampleReport())
    ensures BitsValue(GammaBits(ExampleReport())) == 22
    ensures BitsValue(EpsilonBits(ExampleReport())) == 9
  {
    ExampleGamma();
    ExampleEpsilon();
    ExampleRateValues();
  }

  /** `part1` on the documented report: 22 times 9 is 198. */
  method ExamplePowerConsumption() returns (power: Result<int>)
    ensures power == Ok(198)
  {
    var report := ExampleReport();
    ExampleShape();
    ExampleRates();
    power := PowerConsumption(report);
  }
}
