/** The pie chart of `Program.cs`: slice selection `S` (lines 144-156) and the
    raster of `DrawASCIIPie` (lines 118-142).

    The angle of a cell, `atan2(y, x) / 2π + 0.45` at line 128, is not modelled:
    it reaches the model as a parameter. Fractions and angles are `real`. */
module Pie {
  import opened Proportion

  /** The sixteen values of `System.ConsoleColor`, in the order of their numbers. */
  datatype Color =
    | Black | DarkBlue | DarkGreen | DarkCyan | DarkRed | DarkMagenta | DarkYellow | Gray
    | DarkGray | Blue | Green | Cyan | Red | Magenta | Yellow | White

  /** `Enum.GetValues(typeof(ConsoleColor)).Reverse()` (line 89): the console
      colours from the highest number down. */
  const Palette: seq<Color> :=
    [White, Yellow, Magenta, Red, Cyan, Green, Blue, DarkGray,
     Gray, DarkYellow, DarkMagenta, DarkRed, DarkCyan, DarkGreen, DarkBlue, Black]

  datatype Option<T> = None | Some(value: T)

  /** Slice `j` is the first one from `i` on whose running total of fractions
      `v[i] + ... + v[j]` exceeds the angle `a`: every shorter running total
      `v[i] + ... + v[m - 1]`, `m <= j`, stays at or below it. */
  ghost predicate FirstCover(v: seq<real>, a: real, i: nat, j: nat)
    requires i <= |v|
  {
    && i <= j < |v|
    && a < RangeSum(v, i, j + 1)
    && forall m :: i < m <= j ==> RangeSum(v, i, m) <= a
  }

  /** No running total `v[i] + ... + v[m - 1]` of the fractions from `i` on
      exceeds the angle `a`. */
  ghost predicate NoCover(v: seq<real>, a: real, i: nat)
    requires i <= |v|
  {
    forall m :: i < m <= |v| ==> RangeSum(v, i, m) <= a
  }

  /** The loop of `S`: subtract fractions from `a` until `a` falls below the
      current one. The result is the index `S` returns the colour of, or `None`
      when the fractions run out and `S` returns `Black`. */
  function SliceIndex(v: seq<real>, a: real, i: nat): (r: Option<nat>)
    requires i <= |v|
    ensures r.Some? ==> FirstCover(v, a, i, r.value)
    ensures r.None? ==> NoCover(v, a, i)
    decreases |v| - i
  {
    if |v| == i then None
    else if a < v[i] then Some(i)
    else SliceIndex(v, a - v[i], i + 1)
  }

  /** `S(k, v, a, incdx)`: the colour of the slice the angle `a` falls into,
      counting slices from `i`; `Black` when it falls into none. The colour
      array must be at least as long as the fractions, or `k[incdx]` could
      be out of range. */
  function SliceColor(k: seq<Color>, v: seq<real>, a: real, i: nat): (c: Color)
    requires i <= |v| <= |k|
    ensures forall j: nat :: FirstCover(v, a, i, j) ==> c == k[j]
    ensures NoCover(v, a, i) ==> c == Black
  {
    match SliceIndex(v, a, i)
    case Some(j) => k[j]
    case None => Black
  }

  /** `S` as the source writes it: a `while (true)` loop that updates `a` and
      `incdx` in place. */
  method SelectSlice(k: seq<Color>, v: seq<real>, a0: real, i0: nat) returns (c: Color)
    requires i0 <= |v| <= |k|
    ensures forall j: nat :: FirstCover(v, a0, i0, j) ==> c == k[j]
    ensures NoCover(v, a0, i0) ==> c == Black
    ensures c == SliceColor(k, v, a0, i0)
  {
    var a, i := a0, i0;
    while true
      invariant i0 <= i <= |v|
      invariant SliceIndex(v, a, i) == SliceIndex(v, a0, i0)
      decreases |v| - i
    {
      if |v| == i {
        return Black;
      }
      if a < v[i] {
        return k[i];
      }
      a := a - v[i];
      i := i + 1;
    }
  }

  /** Slice boundaries sit at the running totals of the fractions: for a
      non-negative angle and non-negative fractions, slice `j` is chosen exactly
      when `v[0] + ... + v[j-1] <= a < v[0] + ... + v[j]`. */
  lemma SliceBoundaries(v: seq<real>, a: real, j: nat)
    requires forall m :: 0 <= m < |v| ==> v[m] >= 0.0
    requires a >= 0.0
    ensures SliceIndex(v, a, 0) == Some(j) <==>
              j < |v| && RangeSum(v, 0, j) <= a < RangeSum(v, 0, j + 1)
  {
    var r := SliceIndex(v, a, 0);
    if r == Some(j) && 0 < j {
      assert RangeSum(v, 0, j) <= a;
    }
    if j < |v| && RangeSum(v, 0, j) <= a < RangeSum(v, 0, j + 1) {
      forall m | 0 < m <= j ensures RangeSum(v, 0, m) <= a {
        RangeSumMonotone(v, 0, m, j);
      }
      assert FirstCover(v, a, 0, j);
    }
  }

  /** With non-negative fractions, `S(k, v, a, 0)` falls back to `Black` because
      the fractions ran out exactly when the angle is at least their sum. */
  lemma FallbackIffBeyondTotal(v: seq<real>, a: real)
    requires |v| > 0
    requires forall m :: 0 <= m < |v| ==> v[m] >= 0.0
    ensures SliceIndex(v, a, 0).None? <==> Total(v) <= a
  {
    if Total(v) <= a {
      forall m | 0 < m <= |v| ensures RangeSum(v, 0, m) <= a {
        RangeSumMonotone(v, 0, m, |v|);
      }
      assert NoCover(v, a, 0);
    }
  }

  /** An angle below the sum of the fractions always lands in some slice. */
  lemma CoveredBelowTotal(v: seq<real>, a: real)
    requires |v| > 0
    requires a < Total(v)
    ensures SliceIndex(v, a, 0).Some?
  {
  }

  /** A negative angle falls into the first slice when that slice is not
      negative. */
  lemma NegativeAngleFirstSlice(k: seq<Color>, v: seq<real>, a: real)
    requires 0 < |v| <= |k|
    requires v[0] >= 0.0
    requires a < 0.0
    ensures SliceColor(k, v, a, 0) == k[0]
  {
    assert FirstCover(v, a, 0, 0);
  }

  /** One cell of the raster: its cursor column and row and its colour. Each cell
      is drawn as the two-character block, so columns advance by two. */
  datatype Cell = Cell(column: int, row: int, color: Color)

  /** The side of the bounding square `[-radius, radius]`, or 0 when it is empty. */
  function Side(radius: int): nat
  {
    if radius < 0 then 0 else 2 * radius + 1
  }

  /** `DrawASCIIPie(colors, perc, radius, cx, cy)`: the raster row by row, each row
      left to right. `rows[j][i]` is the cell of offset `(x, y) = (i - radius,
      j - radius)`; it is drawn at column `cx + 2 * radius + 2 * x` and row
      `cy + radius + y`, in the colour of `S` at that cell's angle when
      `x * x + y * y < radius * radius`, and in `Black` otherwise. */
  method DrawPie(colors: seq<Color>, perc: seq<real>, radius: int, cx: int, cy: int,
                 angle: (int, int) -> real)
    returns (rows: seq<seq<Cell>>)
    requires |perc| <= |colors|
    ensures |rows| == Side(radius)
    ensures forall j :: 0 <= j < |rows| ==> |rows[j]| == Side(radius)
    ensures forall j, i :: 0 <= j < |rows| && 0 <= i < |rows[j]| ==>
              var x, y := i - radius, j - radius;
              rows[j][i] == Cell(cx + radius * 2 + x * 2, cy + radius + y,
                                 if x * x + y * y < radius * radius
                                 then SliceColor(colors, perc, angle(x, y), 0)
                                 else Black)
  {
    rows := [];
    var y := -radius;
    while y <= radius
      invariant |rows| == y + radius <= Side(radius)
      invariant forall j :: 0 <= j < |rows| ==> |rows[j]| == Side(radius)
      invariant forall j, i :: 0 <= j < |rows| && 0 <= i < |rows[j]| ==>
                  var x, y := i - radius, j - radius;
                  rows[j][i] == Cell(cx + radius * 2 + x * 2, cy + radius + y,
                                     if x * x + y * y < radius * radius
                                     then SliceColor(colors, perc, angle(x, y), 0)
                                     else Black)
    {
      var row: seq<Cell> := [];
      var x := -radius;
      while x <= radius
        invariant |row| == x + radius <= Side(radius)
        invariant forall i :: 0 <= i < |row| ==>
                    var x := i - radius;
                    row[i] == Cell(cx + radius * 2 + x * 2, cy + radius + y,
                                   if x * x + y * y < radius * radius
                                   then SliceColor(colors, perc, angle(x, y), 0)
                                   else Black)
      {
        var color;
        if x * x + y * y < radius * radius {
          color := SelectSlice(colors, perc, angle(x, y), 0);
        } else {
          color := Black;
        }
        row := row + [Cell(cx + radius * 2 + x * 2, cy + radius + y, color)];
        x := x + 1;
      }
      rows := rows + [row];
      y := y + 1;
    }
  }
}
