/**
 * The x-y line chart of lapogen: it gathers every coordinate of every
 * series, ignores `NaN`, and sets each axis's range from the data (padded by
 * 5% on a linear axis, widened by factors 0.8 and 1.2 above a floor on a
 * logarithmic one); a series without its own colour takes a palette colour.
 */
module XYChart {
  import opened Wrappers

  /** A chart point; `None` stands for a `NaN` coordinate. */
  datatype Point = Point(x: Option<real>, y: Option<real>)

  datatype DataSeries = DataSeries(caption: string, data: seq<Point>, color: string)

  datatype Axis = X | Y

  const ChartColors: seq<string> :=
    ["#3b82f6", "#ef4444", "#10b981", "#f59e0b", "#8b5cf6", "#ec4899", "#06b6d4", "#f97316"]

  /** The lowest `min` a logarithmic x axis gets. */
  const LogFloorX: real := 0.1
  /** The lowest `min` a logarithmic y axis gets. */
  const LogFloorY: real := 0.001

  function Coordinate(p: Point, axis: Axis): Option<real>
  {
    if axis == X then p.x else p.y
  }

  /** The coordinates of some points on one axis that are numbers, in order. */
  function PointValues(ps: seq<Point>, axis: Axis): seq<real>
  {
    if ps == [] then []
    else match Coordinate(ps[0], axis)
      case None => PointValues(ps[1..], axis)
      case Some(v) => [v] + PointValues(ps[1..], axis)
  }

  /** `series.flatMap((s) => s.data.map((p) => p.x)).filter((v) => !isNaN(v))`, and likewise for y. */
  function AllValues(series: seq<DataSeries>, axis: Axis): seq<real>
  {
    if series == [] then [] else PointValues(series[0].data, axis) + AllValues(series[1..], axis)
  }

  /** A number is gathered exactly when some point of some series has it on that axis. */
  lemma {:induction false} PointValuesMembers(ps: seq<Point>, axis: Axis, v: real)
    ensures v in PointValues(ps, axis) <==> exists j :: 0 <= j < |ps| && Coordinate(ps[j], axis) == Some(v)
  {
    if ps != [] {
      PointValuesMembers(ps[1..], axis, v);
      if exists j :: 0 <= j < |ps| - 1 && Coordinate(ps[1..][j], axis) == Some(v) {
        var j :| 0 <= j < |ps| - 1 && Coordinate(ps[1..][j], axis) == Some(v);
        assert ps[j + 1] == ps[1..][j];
      }
      if exists j :: 0 <= j < |ps| && Coordinate(ps[j], axis) == Some(v) {
        var j :| 0 <= j < |ps| && Coordinate(ps[j], axis) == Some(v);
        if j > 0 {
          assert ps[1..][j - 1] == ps[j];
        }
      }
    }
  }

  /** `NaN` coordinates are left out and every number is kept. */
  lemma {:induction false} AllValuesMembers(series: seq<DataSeries>, axis: Axis, v: real)
    ensures v in AllValues(series, axis) <==>
      exists i, j :: 0 <= i < |series| && 0 <= j < |series[i].data| && Coordinate(series[i].data[j], axis) == Some(v)
  {
    if series != [] {
      AllValuesMembers(series[1..], axis, v);
      PointValuesMembers(series[0].data, axis, v);
      if exists i, j :: 0 <= i < |series| - 1 && 0 <= j < |series[1..][i].data| && Coordinate(series[1..][i].data[j], axis) == Some(v) {
        var i, j :| 0 <= i < |series| - 1 && 0 <= j < |series[1..][i].data| && Coordinate(series[1..][i].data[j], axis) == Some(v);
        assert series[i + 1] == series[1..][i];
      }
      if exists i, j :: 0 <= i < |series| && 0 <= j < |series[i].data| && Coordinate(series[i].data[j], axis) == Some(v) {
        var i, j :| 0 <= i < |series| && 0 <= j < |series[i].data| && Coordinate(series[i].data[j], axis) == Some(v);
        if i > 0 {
          assert series[1..][i - 1] == series[i];
        }
      }
    }
  }

  /** `Math.min(...xs)`. */
  function MinOf(xs: seq<real>): (m: real)
    requires |xs| > 0
    ensures m in xs && forall i :: 0 <= i < |xs| ==> m <= xs[i]
  {
    if |xs| == 1 then xs[0]
    else var rest := MinOf(xs[1..]); if xs[0] <= rest then xs[0] else rest
  }

  /** `Math.max(...xs)`. */
  function MaxOf(xs: seq<real>): (m: real)
    requires |xs| > 0
    ensures m in xs && forall i :: 0 <= i < |xs| ==> xs[i] <= m
  {
    if |xs| == 1 then xs[0]
    else var rest := MaxOf(xs[1..]); if xs[0] >= rest then xs[0] else rest
  }

  /** An axis range: the `min` and `max` set on an axis configuration. */
  datatype Range = Range(min: real, max: real)

  /**
   * The range an axis gets from its numbers: none without numbers; on a
   * logarithmic axis 0.8 times the smallest (but at least `floor`) to 1.2
   * times the largest; on a linear axis the span of the numbers widened by 5%
   * of it on each side.
   */
  function AxisRange(values: seq<real>, logarithmic: bool, floor: real): (r: Option<Range>)
    ensures r.None? <==> values == []
  {
    if values == [] then None
    else
      var lo := MinOf(values);
      var hi := MaxOf(values);
      if logarithmic then Some(Range(if floor > lo * 0.8 then floor else lo * 0.8, hi * 1.2))
      else
        var padding := (hi - lo) * 0.05;
        Some(Range(lo - padding, hi + padding))
  }

  /** A linear axis shows every number, with 5% of the span to spare on each side. */
  lemma LinearRangeEncloses(values: seq<real>, floor: real)
    requires values != []
    ensures var r := AxisRange(values, false, floor).value;
      && (forall i :: 0 <= i < |values| ==> r.min <= values[i] <= r.max)
      && r.max - r.min == (MaxOf(values) - MinOf(values)) * 1.1
  {
  }

  /**
   * A logarithmic axis never starts below its floor, and it shows every
   * number when all of them are at least the floor and the floor is positive.
   */
  lemma LogRangeEncloses(values: seq<real>, floor: real)
    requires values != []
    ensures AxisRange(values, true, floor).value.min >= floor
    ensures floor > 0.0 && (forall i :: 0 <= i < |values| ==> values[i] >= floor) ==>
      forall i :: 0 <= i < |values| ==>
        AxisRange(values, true, floor).value.min <= values[i] <= AxisRange(values, true, floor).value.max
  {
  }

  /** The part of an axis configuration the chart computes: its type and its optional range. */
  class AxisConfig {
    var kind: string
    var min: Option<real>
    var max: Option<real>

    /** The configuration before any range is set: only the axis type. */
    constructor (logarithmic: bool)
      ensures kind == (if logarithmic then "logarithmic" else "linear")
      ensures min.None? && max.None?
    {
      kind := if logarithmic then "logarithmic" else "linear";
      min := None;
      max := None;
    }

    /** Sets `min` and `max` from the numbers gathered for this axis, if there are any. */
    method SetRange(values: seq<real>, logarithmic: bool, floor: real)
      modifies this
      ensures kind == old(kind)
      ensures values == [] ==> min == old(min) && max == old(max)
      ensures values != [] ==>
        min == Some(AxisRange(values, logarithmic, floor).value.min)
        && max == Some(AxisRange(values, logarithmic, floor).value.max)
    {
      if |values| > 0 {
        var minX := MinOf(values);
        var maxX := MaxOf(values);
        var xRange := maxX - minX;
        if logarithmic {
          var logMin := if floor > minX * 0.8 then floor else minX * 0.8;
          var logMax := maxX * 1.2;
          min := Some(logMin);
          max := Some(logMax);
        } else {
          var xPadding := xRange * 0.05;
          min := Some(minX - xPadding);
          max := Some(maxX + xPadding);
        }
      }
    }
  }

  /**
   * The two axis configurations of a chart: each axis's type follows its
   * flag, and each gets the range of its own numbers, with the floors 0.1
   * for x and 0.001 for y on a logarithmic axis.
   */
  method BuildAxes(series: seq<DataSeries>, logarithmicX: bool, logarithmicY: bool)
    returns (xAxis: AxisConfig, yAxis: AxisConfig)
    ensures fresh(xAxis) && fresh(yAxis) && xAxis != yAxis
    ensures xAxis.kind == "logarithmic" <==> logarithmicX
    ensures yAxis.kind == "logarithmic" <==> logarithmicY
    ensures var r := AxisRange(AllValues(series, X), logarithmicX, LogFloorX);
      xAxis.min == (if r.Some? then Some(r.value.min) else None)
      && xAxis.max == (if r.Some? then Some(r.value.max) else None)
    ensures var r := AxisRange(AllValues(series, Y), logarithmicY, LogFloorY);
      yAxis.min == (if r.Some? then Some(r.value.min) else None)
      && yAxis.max == (if r.Some? then Some(r.value.max) else None)
  {
    var allXValues := AllValues(series, X);
    var allYValues := AllValues(series, Y);
    xAxis := new AxisConfig(logarithmicX);
    yAxis := new AxisConfig(logarithmicY);
    xAxis.SetRange(allXValues, logarithmicX, LogFloorX);
    yAxis.SetRange(allYValues, logarithmicY, LogFloorY);
  }

  /** `s.color || CHART_COLORS[idx % CHART_COLORS.length]`: an empty colour falls back to the palette. */
  function DatasetColor(s: DataSeries, idx: nat): (c: string)
    ensures s.color != "" ==> c == s.color
    ensures s.color == "" ==> c == ChartColors[idx % 8] && c != ""
  {
    if s.color != "" then s.color else ChartColors[idx % |ChartColors|]
  }
}
