// The month heatmap: one cell per day, shaded by the share of habits done that day.

module Heatmap {

  /** `getHeatLevel`: 0 for nothing done, then quarters of the maximum. */
  function HeatLevel(value: int, maxValue: int): (level: int)
    ensures 0 <= level <= 4
    ensures value == 0 || maxValue == 0 ==> level == 0
  {
    if value == 0 then 0
    else if maxValue == 0 then 0
    else
      var ratio := value as real / maxValue as real;
      if ratio <= 0.25 then 1
      else if ratio <= 0.5 then 2
      else if ratio <= 0.75 then 3
      else 4
  }

  /** With some habits, a day with some done is shaded, and the level grows with the count. */
  lemma HeatLevelMonotone(v: int, w: int, maxValue: int)
    requires 0 < v <= w && maxValue > 0
    ensures 1 <= HeatLevel(v, maxValue) <= HeatLevel(w, maxValue)
  {
    var m := maxValue as real;
    assert v as real / m <= w as real / m by {
      assert v as real <= w as real;
      assert v as real / m * m == v as real;
      assert w as real / m * m == w as real;
    }
  }

  /** The levels in counts: level k holds the counts above (k-1)/4 and up to k/4 of the maximum. */
  lemma HeatLevelQuarters(value: int, maxValue: int)
    requires value > 0 && maxValue > 0
    ensures HeatLevel(value, maxValue) == 1 <==> 4 * value <= maxValue
    ensures HeatLevel(value, maxValue) == 2 <==> maxValue < 4 * value <= 2 * maxValue
    ensures HeatLevel(value, maxValue) == 3 <==> 2 * maxValue < 4 * value <= 3 * maxValue
    ensures HeatLevel(value, maxValue) == 4 <==> 3 * maxValue < 4 * value
  {
    RatioAtMost(value, maxValue, 1);
    RatioAtMost(value, maxValue, 2);
    RatioAtMost(value, maxValue, 3);
  }

  /** value / maxValue <= k / 4 exactly when 4 * value <= k * maxValue. */
  lemma RatioAtMost(value: int, maxValue: int, k: int)
    requires maxValue > 0 && 1 <= k <= 3
    ensures (value as real / maxValue as real <= k as real / 4.0) <==> 4 * value <= k * maxValue
  {
    var m := maxValue as real;
    var ratio := value as real / m;
    assert m * ratio == value as real;
    if k == 1 {
      ScaleLe(m, ratio, 0.25);
    } else if k == 2 {
      assert k * maxValue == 2 * maxValue;
      ScaleLe(m, ratio, 0.5);
    } else {
      assert k * maxValue == 3 * maxValue;
      ScaleLe(m, ratio, 0.75);
    }
  }

  /** Scaling by a positive factor keeps the order. */
  lemma ScaleLe(c: real, a: real, b: real)
    requires c > 0.0
    ensures a <= b <==> c * a <= c * b
  {
  }

  /** A cell of the grid: its day label and its level. */
  datatype Cell = Cell(day: int, level: int)

  /** The day cells, labelled 1, 2, ... in the order of the data. */
  function Cells(data: seq<int>, maxValue: int): (cs: seq<Cell>)
    ensures |cs| == |data|
    ensures forall i :: 0 <= i < |data| ==> cs[i].day == i + 1 && cs[i].level == HeatLevel(data[i], maxValue)
  {
    seq(|data|, i requires 0 <= i < |data| => Cell(i + 1, HeatLevel(data[i], maxValue)))
  }
}
