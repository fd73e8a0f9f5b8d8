/**
 Linear interpolation of metric samples onto a time grid
 (backend/repositories/metric_repo.py), over exact reals.
 */
module Interpolation {
  import opened Base

  datatype Point = Point(time: real, value: real)

  /** The samples are ordered by time; several may have the same time. */
  predicate Sorted(data: seq<Point>)
  {
    forall i, j | 0 <= i < j < |data| :: data[i].time <= data[j].time
  }

  /** The last of the first `n` samples that is not after the time. */
  function LastBefore(data: seq<Point>, t: real, n: nat): Option<nat>
    requires n <= |data|
    ensures LastBefore(data, t, n).Some?
            ==> LastBefore(data, t, n).value < n && data[LastBefore(data, t, n).value].time <= t
    ensures LastBefore(data, t, n).Some? ==> forall i | LastBefore(data, t, n).value < i < n :: data[i].time > t
    ensures LastBefore(data, t, n).None? ==> forall i | 0 <= i < n :: data[i].time > t
  {
    if n == 0 then None else if data[n - 1].time <= t then Some(n - 1) else LastBefore(data, t, n - 1)
  }

  /** The first of the first `n` samples that is not before the time. */
  function FirstAfter(data: seq<Point>, t: real, n: nat): Option<nat>
    requires n <= |data|
    ensures FirstAfter(data, t, n).Some?
            ==> FirstAfter(data, t, n).value < n && data[FirstAfter(data, t, n).value].time >= t
    ensures FirstAfter(data, t, n).Some? ==> forall i | 0 <= i < FirstAfter(data, t, n).value :: data[i].time < t
    ensures FirstAfter(data, t, n).None? ==> forall i | 0 <= i < n :: data[i].time < t
  {
    if n == 0 then None
    else
      var earlier := FirstAfter(data, t, n - 1);
      if earlier.Some? then earlier else if data[n - 1].time >= t then Some(n - 1) else None
  }

  function Blend(before: Point, after: Point, t: real): real
    requires before.time < after.time
  {
    before.value + (t - before.time) / (after.time - before.time) * (after.value - before.value)
  }

  /** The value at a time, from the samples around it. */
  function ValueAt(data: seq<Point>, t: real): real
    requires data != []
  {
    var before, after := LastBefore(data, t, |data|), FirstAfter(data, t, |data|);
    if before.None? then data[after.value].value
    else if after.None? || data[before.value].time >= data[after.value].time then data[before.value].value
    else Blend(data[before.value], data[after.value], t)
  }

  // ------------------------------------------------------------------------------ the program

  /** The samples around one time, in one pass over the data. */
  method Surrounding(data: seq<Point>, t: real) returns (before: Option<Point>, after: Option<Point>)
    ensures before == if LastBefore(data, t, |data|).Some? then Some(data[LastBefore(data, t, |data|).value]) else None
    ensures after == if FirstAfter(data, t, |data|).Some? then Some(data[FirstAfter(data, t, |data|).value]) else None
  {
    before, after := None, None;
    var i := 0;
    while i < |data|
      invariant 0 <= i <= |data|
      invariant before == if LastBefore(data, t, i).Some? then Some(data[LastBefore(data, t, i).value]) else None
      invariant after == if FirstAfter(data, t, i).Some? then Some(data[FirstAfter(data, t, i).value]) else None
    {
      if data[i].time <= t {
        before := Some(data[i]);
      }
      if data[i].time >= t && after.None? {
        after := Some(data[i]);
      }
      i := i + 1;
    }
  }

  /** One point per grid time, in order; nothing at all without data. */
  method InterpolateToGrid(data: seq<Point>, grid: seq<real>) returns (result: seq<Point>)
    requires Sorted(data)
    ensures data == [] ==> result == []
    ensures data != [] ==> |result| == |grid| && forall i | 0 <= i < |grid| ::
            result[i] == Point(grid[i], ValueAt(data, grid[i]))
  {
    result := [];
    if data == [] {
      return;
    }
    var i := 0;
    while i < |grid|
      invariant 0 <= i <= |grid| && |result| == i
      invariant forall j | 0 <= j < i :: result[j] == Point(grid[j], ValueAt(data, grid[j]))
    {
      var t := grid[i];
      var before, after := Surrounding(data, t);
      var value;
      if before.None? {
        value := after.value.value;
      } else if after.None? || before.value.time >= after.value.time {
        value := before.value.value;
      } else {
        var ratio := (t - before.value.time) / (after.value.time - before.value.time);
        value := before.value.value + ratio * (after.value.value - before.value.value);
      }
      result := result + [Point(t, value)];
      i := i + 1;
    }
  }

  // --------------------------------------------------------------------------- its properties

  function Min(x: real, y: real): real { if x < y then x else y }
  function Max(x: real, y: real): real { if x < y then y else x }

  lemma RatioInRange(x: real, y: real)
    requires 0.0 <= x <= y && 0.0 < y
    ensures 0.0 <= x / y <= 1.0
  {
  }

  lemma ScaleInRange(r: real, d: real)
    requires 0.0 <= r <= 1.0
    ensures Min(0.0, d) <= r * d <= Max(0.0, d)
  {
    if d >= 0.0 {
      assert 0.0 <= r * d && (1.0 - r) * d >= 0.0;
    } else {
      assert r * d <= 0.0 && (1.0 - r) * d <= 0.0;
    }
  }

  lemma BlendInRange(before: Point, after: Point, t: real)
    requires before.time < after.time && before.time <= t <= after.time
    ensures Min(before.value, after.value) <= Blend(before, after, t) <= Max(before.value, after.value)
  {
    RatioInRange(t - before.time, after.time - before.time);
    ScaleInRange((t - before.time) / (after.time - before.time), after.value - before.value);
  }

  /** Each value lies between those of the samples around its time; outside the range the nearest end is held. */
  lemma ValueBetweenNeighbours(data: seq<Point>, t: real)
    requires data != [] && Sorted(data)
    ensures var before, after := LastBefore(data, t, |data|), FirstAfter(data, t, |data|);
            && (before.Some? || after.Some?)
            && (before.None? ==> after == Some(0) && ValueAt(data, t) == data[0].value)
            && (after.None? ==> before == Some(|data| - 1) && ValueAt(data, t) == data[|data| - 1].value)
            && (before.Some? && after.Some? ==>
                  Min(data[before.value].value, data[after.value].value) <= ValueAt(data, t)
                      <= Max(data[before.value].value, data[after.value].value))
  {
    var before, after := LastBefore(data, t, |data|), FirstAfter(data, t, |data|);
    if before.None? {
      assert data[0].time > t;
    } else if after.None? {
      assert data[|data| - 1].time < t;
    } else if data[before.value].time < data[after.value].time {
      BlendInRange(data[before.value], data[after.value], t);
    }
  }

  /** At the time of a sample the value is that of the last sample with this time. */
  lemma SampleTimesAreExact(data: seq<Point>, i: nat)
    requires i < |data| && Sorted(data) && (i == |data| - 1 || data[i].time < data[i + 1].time)
    ensures ValueAt(data, data[i].time) == data[i].value
  {
    var t := data[i].time;
    var before, after := LastBefore(data, t, |data|), FirstAfter(data, t, |data|);
    assert before == Some(i);
    assert after.Some? && data[after.value].time == t;
  }

  /** The values of the samples are those of a straight line. */
  predicate OnLine(data: seq<Point>, offset: real, slope: real)
  {
    forall i | 0 <= i < |data| :: data[i].value == offset + slope * data[i].time
  }

  lemma BlendOfLine(before: Point, after: Point, offset: real, slope: real, t: real)
    requires before.time < after.time
    requires before.value == offset + slope * before.time && after.value == offset + slope * after.time
    ensures Blend(before, after, t) == offset + slope * t
  {
    var d := after.time - before.time;
    var x := t - before.time;
    assert after.value - before.value == slope * d;
    calc {
      x / d * (after.value - before.value);
    ==
      x / d * (slope * d);
    == { assert x / d * (slope * d) == slope * (x / d * d); }
      slope * (x / d * d);
    == { assert x / d * d == x; }
      slope * x;
    }
    assert slope * x == slope * t - slope * before.time;
  }

  /** Inside the range, points of a line stay on the line. */
  lemma LineIsReproduced(data: seq<Point>, offset: real, slope: real, t: real)
    requires data != [] && Sorted(data) && OnLine(data, offset, slope)
    requires data[0].time <= t <= data[|data| - 1].time
    ensures ValueAt(data, t) == offset + slope * t
  {
    var before, after := LastBefore(data, t, |data|), FirstAfter(data, t, |data|);
    if data[before.value].time < data[after.value].time {
      BlendOfLine(data[before.value], data[after.value], offset, slope, t);
    }
  }

  predicate NonDecreasing(data: seq<Point>)
  {
    forall i, j | 0 <= i < j < |data| :: data[i].value <= data[j].value
  }

  lemma BlendMonotone(before: Point, after: Point, t: real, u: real)
    requires before.time < after.time && before.value <= after.value && t <= u
    ensures Blend(before, after, t) <= Blend(before, after, u)
  {
    var d := after.time - before.time;
    var x, y := t - before.time, u - before.time;
    assert y / d - x / d == (y - x) / d >= 0.0;
    assert (y / d - x / d) * (after.value - before.value) >= 0.0;
    assert (y / d - x / d) * (after.value - before.value)
           == y / d * (after.value - before.value) - x / d * (after.value - before.value);
  }

  /**
   The samples around a later time are no earlier, and if nothing lies between two times they
   have the same samples around them.
   */
  lemma NeighboursMove(data: seq<Point>, t: real, u: real)
    requires Sorted(data) && t <= u
    ensures var b, a := LastBefore(data, t, |data|), FirstAfter(data, t, |data|);
            var c, d := LastBefore(data, u, |data|), FirstAfter(data, u, |data|);
            (a.Some? && c.Some? && a.value <= c.value) || (b == c && a == d)
  {
    var b, a := LastBefore(data, t, |data|), FirstAfter(data, t, |data|);
    var c, d := LastBefore(data, u, |data|), FirstAfter(data, u, |data|);
    if b != c {
      assert c.Some? && (b.None? || b.value < c.value);
      assert data[c.value].time > t;
    } else if a != d {
      assert a.Some? && (d.None? || a.value < d.value);
      assert data[a.value].time < u;
    }
  }

  /** Non-decreasing data has non-decreasing values: interpolation does not invent dips. */
  lemma InterpolationIsMonotone(data: seq<Point>, t: real, u: real)
    requires data != [] && Sorted(data) && NonDecreasing(data) && t <= u
    ensures ValueAt(data, t) <= ValueAt(data, u)
  {
    var b, a := LastBefore(data, t, |data|), FirstAfter(data, t, |data|);
    var c, d := LastBefore(data, u, |data|), FirstAfter(data, u, |data|);
    NeighboursMove(data, t, u);
    ValueBetweenNeighbours(data, t);
    ValueBetweenNeighbours(data, u);
    if a.Some? && c.Some? && a.value <= c.value {
      assert data[a.value].value <= data[c.value].value;
      assert b.Some? ==> b.value <= c.value;
      UpperNeighbour(data, t);
      LowerNeighbour(data, u);
    } else if b.Some? && a.Some? && data[b.value].time < data[a.value].time {
      BlendMonotone(data[b.value], data[a.value], t, u);
    }
  }

  lemma UpperNeighbour(data: seq<Point>, t: real)
    requires data != [] && Sorted(data) && NonDecreasing(data) && FirstAfter(data, t, |data|).Some?
    ensures var before := LastBefore(data, t, |data|);
            || ValueAt(data, t) <= data[FirstAfter(data, t, |data|).value].value
            || (before.Some? && ValueAt(data, t) == data[before.value].value)
  {
    ValueBetweenNeighbours(data, t);
  }

  lemma LowerNeighbour(data: seq<Point>, t: real)
    requires data != [] && Sorted(data) && NonDecreasing(data) && LastBefore(data, t, |data|).Some?
    ensures data[LastBefore(data, t, |data|).value].value <= ValueAt(data, t)
  {
    ValueBetweenNeighbours(data, t);
  }

  /** On a sorted grid, non-decreasing data gives a non-decreasing result. */
  lemma SortedGridGivesSortedValues(data: seq<Point>, grid: seq<real>, result: seq<Point>)
    requires data != [] && Sorted(data) && NonDecreasing(data) && forall i, j | 0 <= i < j < |grid| ::
             grid[i] <= grid[j]
    requires |result| == |grid| && forall i | 0 <= i < |grid| :: result[i] == Point(grid[i], ValueAt(data, grid[i]))
    ensures Sorted(result) && NonDecreasing(result)
  {
    forall i, j | 0 <= i < j < |result|
      ensures result[i].value <= result[j].value
    {
      InterpolationIsMonotone(data, grid[i], grid[j]);
    }
  }
}
