/**
 * The half-doughnut gauge of lapogen that shows the arm angle: the value is
 * clamped to the scale, and the arc is cut into grey segments and one
 * filled segment running from the zero mark to the value, in percent of the
 * scale.
 */
module AngleGaugeChart {
  /** `Math.max(min, Math.min(max, value))`. */
  function Clamp(value: real, min: real, max: real): (c: real)
    ensures min <= max ==> min <= c <= max
    ensures min <= value <= max ==> c == value
    ensures value < min ==> c == min
    ensures min <= max < value ==> c == max
  {
    var upper := if max < value then max else value;
    if min > upper then min else upper
  }

  /** The position of `x` on the scale, in percent: `((x - min) / (max - min)) * 100`. */
  function Position(x: real, min: real, max: real): real
    requires min < max
  {
    (x - min) / (max - min) * 100.0
  }

  datatype Color = Grey | Fill

  /** One arc segment: its share of the arc in percent and its colour. */
  datatype Segment = Segment(size: real, color: Color)

  /** A candidate segment is drawn only when its size is positive. */
  function Keep(size: real, color: Color): (s: seq<Segment>)
    ensures |s| <= 1 && (s != [] <==> size > 0.0)
    ensures s != [] ==> s[0] == Segment(size, color)
  {
    if size > 0.0 then [Segment(size, color)] else []
  }

  /**
   * The segments the gauge draws: a single grey 100 at zero; otherwise the
   * grey part before the filled run, the filled run between the zero mark
   * and the value, and the grey part after it, each kept only when positive.
   */
  function Segments(value: real, min: real, max: real): seq<Segment>
    requires min < max
  {
    var c := Clamp(value, min, max);
    var zero := Position(0.0, min, max);
    var at := Position(c, min, max);
    if c == 0.0 then [Segment(100.0, Grey)]
    else if c > 0.0 then Keep(zero, Grey) + Keep(at - zero, Fill) + Keep(100.0 - at, Grey)
    else Keep(at, Grey) + Keep(zero - at, Fill) + Keep(100.0 - zero, Grey)
  }

  /** The parallel size and colour arrays list the segments, every size positive. */
  predicate Lists(data: seq<real>, colors: seq<Color>, segments: seq<Segment>)
  {
    && |data| == |colors| == |segments|
    && forall i :: 0 <= i < |segments| ==> segments[i] == Segment(data[i], colors[i]) && data[i] > 0.0
  }

  /** One conditional push onto both arrays: the candidate is added only when its size is positive. */
  method PushKept(data: seq<real>, colors: seq<Color>, ghost segments: seq<Segment>, size: real, color: Color)
    returns (data': seq<real>, colors': seq<Color>)
    requires Lists(data, colors, segments)
    ensures Lists(data', colors', segments + Keep(size, color))
  {
    data', colors' := data, colors;
    if size > 0.0 {
      data' := data' + [size];
      colors' := colors' + [color];
    }
  }

  /** The three conditional pushes away from zero: grey, filled, grey. */
  method PushRuns(before: real, filled: real, after: real) returns (data: seq<real>, colors: seq<Color>)
    ensures Lists(data, colors, Keep(before, Grey) + Keep(filled, Fill) + Keep(after, Grey))
  {
    data, colors := PushKept([], [], [], before, Grey);
    data, colors := PushKept(data, colors, Keep(before, Grey), filled, Fill);
    data, colors := PushKept(data, colors, Keep(before, Grey) + Keep(filled, Fill), after, Grey);
  }

  /**
   * Builds the two parallel chart arrays by conditional pushes: `data` holds
   * the segment sizes and `colors` their colours.
   */
  method BuildSegments(value: real, min: real, max: real) returns (data: seq<real>, colors: seq<Color>)
    requires min < max
    ensures |data| == |colors| == |Segments(value, min, max)|
    ensures forall i :: 0 <= i < |data| ==>
      Segments(value, min, max)[i] == Segment(data[i], colors[i])
    ensures forall i :: 0 <= i < |data| ==> data[i] > 0.0
  {
    var c := Clamp(value, min, max);
    var zeroPosition := Position(0.0, min, max);
    var valuePosition := Position(c, min, max);
    if c == 0.0 {
      data := [100.0];
      colors := [Grey];
    } else if c > 0.0 {
      data, colors := PushRuns(zeroPosition, valuePosition - zeroPosition, 100.0 - valuePosition);
    } else {
      data, colors := PushRuns(valuePosition, zeroPosition - valuePosition, 100.0 - zeroPosition);
    }
    assert Lists(data, colors, Segments(value, min, max));
  }

  function TotalSize(segments: seq<Segment>): real
  {
    if segments == [] then 0.0 else segments[0].size + TotalSize(segments[1..])
  }

  lemma {:induction false} TotalSizeConcat(a: seq<Segment>, b: seq<Segment>)
    ensures TotalSize(a + b) == TotalSize(a) + TotalSize(b)
  {
    if a == [] {
      assert a + b == b;
    } else {
      TotalSizeConcat(a[1..], b);
      assert (a + b)[1..] == a[1..] + b;
    }
  }

  /** The size a candidate contributes: itself when drawn, nothing otherwise. */
  function Kept(size: real): real
  {
    if size > 0.0 then size else 0.0
  }

  lemma TotalOfThree(x: real, p: Color, y: real, q: Color, z: real, r: Color)
    ensures TotalSize(Keep(x, p) + Keep(y, q) + Keep(z, r)) == Kept(x) + Kept(y) + Kept(z)
  {
    TotalSizeConcat(Keep(x, p) + Keep(y, q), Keep(z, r));
    TotalSizeConcat(Keep(x, p), Keep(y, q));
  }

  /** A position scaled back by the length of the scale is its distance from `min`, times 100. */
  lemma PositionScaled(x: real, min: real, max: real)
    requires min < max
    ensures Position(x, min, max) * (max - min) == (x - min) * 100.0
  {
  }

  /** Multiplying by a positive length keeps the sign. */
  lemma SignOfScaled(p: real, range: real, q: real)
    requires range > 0.0 && p * range == q
    ensures p > 0.0 <==> q > 0.0
    ensures p == 0.0 <==> q == 0.0
  {
    if p > 0.0 {
      assert p * range > 0.0;
    } else if p < 0.0 {
      assert (-p) * range > 0.0;
    }
  }

  /** The signs of the candidate segments, read off the scale. */
  lemma CandidateSigns(c: real, min: real, max: real)
    requires min < max && min <= c <= max
    ensures var zero := Position(0.0, min, max);
      var at := Position(c, min, max);
      && (zero > 0.0 <==> min < 0.0) && (zero == 0.0 <==> min == 0.0)
      && (at - zero > 0.0 <==> c > 0.0) && (at - zero == 0.0 <==> c == 0.0)
      && (100.0 - at > 0.0 <==> c < max) && (100.0 - at == 0.0 <==> c == max)
      && (at > 0.0 <==> c > min) && (at == 0.0 <==> c == min)
      && (100.0 - zero > 0.0 <==> max > 0.0) && (100.0 - zero == 0.0 <==> max == 0.0)
  {
    var range := max - min;
    var zero := Position(0.0, min, max);
    var at := Position(c, min, max);
    PositionScaled(0.0, min, max);
    PositionScaled(c, min, max);
    PositionScaled(max, min, max);
    assert Position(max, min, max) == 100.0 by {
      assert (max - min) / (max - min) == 1.0;
    }
    SignOfScaled(zero, range, -min * 100.0);
    SignOfScaled(at, range, (c - min) * 100.0);
    SignOfScaled(at - zero, range, c * 100.0);
    SignOfScaled(100.0 - at, range, (max - c) * 100.0);
    SignOfScaled(100.0 - zero, range, max * 100.0);
  }

  /**
   * The arc is exactly covered, the segments adding up to 100 percent,
   * exactly when the zero mark lies on the scale.
   */
  lemma SegmentsCoverArc(value: real, min: real, max: real)
    requires min < max
    ensures TotalSize(Segments(value, min, max)) == 100.0 <==> min <= 0.0 <= max
  {
    var c := Clamp(value, min, max);
    var zero := Position(0.0, min, max);
    var at := Position(c, min, max);
    if c > 0.0 {
      TotalOfThree(zero, Grey, at - zero, Fill, 100.0 - at, Grey);
      KeptAboveZero(c, min, max);
    } else if c < 0.0 {
      TotalOfThree(at, Grey, zero - at, Fill, 100.0 - zero, Grey);
      KeptBelowZero(c, min, max);
    } else {
      assert TotalSize([Segment(100.0, Grey)]) == 100.0 + TotalSize([]);
    }
  }

  /** Above zero, the kept candidates add up to 100 exactly when the scale starts at or below zero. */
  lemma KeptAboveZero(c: real, min: real, max: real)
    requires min < max && min <= c <= max && c > 0.0
    ensures var zero, at := Position(0.0, min, max), Position(c, min, max);
      Kept(zero) + Kept(at - zero) + Kept(100.0 - at) == 100.0 <==> min <= 0.0 <= max
  {
    CandidateSigns(c, min, max);
  }

  /** Below zero, the kept candidates add up to 100 exactly when the scale ends at or above zero. */
  lemma KeptBelowZero(c: real, min: real, max: real)
    requires min < max && min <= c <= max && c < 0.0
    ensures var zero, at := Position(0.0, min, max), Position(c, min, max);
      Kept(at) + Kept(zero - at) + Kept(100.0 - zero) == 100.0 <==> min <= 0.0 <= max
  {
    CandidateSigns(c, min, max);
  }

  /** The distance between two marks on the scale is the position of their difference. */
  lemma PositionDistance(c: real, min: real, max: real)
    requires min < max
    ensures Position(c, min, max) - Position(0.0, min, max) == Position(c, 0.0, max - min)
    ensures Position(0.0, min, max) - Position(c, min, max) == Position(-c, 0.0, max - min)
  {
    var r := max - min;
    assert (c - min) / r - (0.0 - min) / r == c / r;
  }

  /** A kept grey candidate holds only grey segments. */
  lemma KeptGrey(size: real)
    ensures forall j :: 0 <= j < |Keep(size, Grey)| ==> Keep(size, Grey)[j].color == Grey
  {
  }

  /** A filled segment between grey runs is the only filled one. */
  lemma FilledBetween(first: seq<Segment>, size: real, last: seq<Segment>)
    requires forall j :: 0 <= j < |first| ==> first[j].color == Grey
    requires forall j :: 0 <= j < |last| ==> last[j].color == Grey
    ensures var segs := first + [Segment(size, Fill)] + last;
      segs[|first|] == Segment(size, Fill)
      && forall j :: 0 <= j < |segs| && j != |first| ==> segs[j].color == Grey
  {
    var segs := first + [Segment(size, Fill)] + last;
    forall j | 0 <= j < |segs| && j != |first|
      ensures segs[j].color == Grey
    {
      if j < |first| {
        assert segs[j] == first[j];
      } else {
        assert segs[j] == last[j - |first| - 1];
      }
    }
  }

  /**
   * Away from zero exactly one segment is filled, and its size is the
   * value's distance from zero in percent of the scale, whatever the sign:
   * positive and negative values share the fill colour.
   */
  lemma OneFilledSegment(value: real, min: real, max: real)
    requires min < max && Clamp(value, min, max) != 0.0
    ensures var segs := Segments(value, min, max);
      var c := Clamp(value, min, max);
      exists i :: 0 <= i < |segs| && segs[i] == Segment(Position(if c > 0.0 then c else -c, 0.0, max - min), Fill)
        && forall j :: 0 <= j < |segs| && j != i ==> segs[j].color == Grey
  {
    var c := Clamp(value, min, max);
    var first, size, last := FilledRun(value, min, max);
    FilledBetween(first, size, last);
    assert Segments(value, min, max)[|first|] == Segment(size, Fill);
  }

  /** Away from zero the segments are a grey run, the filled run and a grey run. */
  lemma FilledRun(value: real, min: real, max: real) returns (first: seq<Segment>, size: real, last: seq<Segment>)
    requires min < max && Clamp(value, min, max) != 0.0
    ensures Segments(value, min, max) == first + [Segment(size, Fill)] + last
    ensures var c := Clamp(value, min, max); size == Position(if c > 0.0 then c else -c, 0.0, max - min)
    ensures forall j :: 0 <= j < |first| ==> first[j].color == Grey
    ensures forall j :: 0 <= j < |last| ==> last[j].color == Grey
  {
    var c := Clamp(value, min, max);
    var zero := Position(0.0, min, max);
    var at := Position(c, min, max);
    if c > 0.0 {
      first, size, last := Keep(zero, Grey), at - zero, Keep(100.0 - at, Grey);
      KeptGrey(zero);
      KeptGrey(100.0 - at);
      RunSize(c, min, max);
    } else {
      first, size, last := Keep(at, Grey), zero - at, Keep(100.0 - zero, Grey);
      KeptGrey(at);
      KeptGrey(100.0 - zero);
      RunSize(c, min, max);
    }
  }

  /** The filled run is drawn, and its size is the distance of the value from zero on the scale. */
  lemma RunSize(c: real, min: real, max: real)
    requires min < max && min <= c <= max && c != 0.0
    ensures var zero, at := Position(0.0, min, max), Position(c, min, max);
      var size := if c > 0.0 then at - zero else zero - at;
      size > 0.0 && size == Position(if c > 0.0 then c else -c, 0.0, max - min)
  {
    PositionDistance(c, min, max);
    CandidateSigns(c, min, max);
  }

  /** At zero the gauge is a single grey segment of 100. */
  lemma ZeroIsAllGrey(value: real, min: real, max: real)
    requires min < max && Clamp(value, min, max) == 0.0
    ensures Segments(value, min, max) == [Segment(100.0, Grey)]
    ensures min <= 0.0 <= max
  {
  }

  /** The readout's sign: "+" before a positive clamped value, nothing otherwise. */
  function SignPrefix(value: real, min: real, max: real): (s: string)
    ensures s == "+" <==> Clamp(value, min, max) > 0.0
    ensures s == "" <==> Clamp(value, min, max) <= 0.0
  {
    if Clamp(value, min, max) > 0.0 then "+" else ""
  }
}
