/**
 * The polar chart of lapogen's angle view: 180 angular slots labelled every
 * ten degrees from -80 to +90, one dataset per amplitude (ascending), each
 * placing a point's value in the slot of its rounded angle modulo 180, and a
 * blue-to-red colour scale over the amplitudes 15000 to 30000 uA.
 */
module PolarChart {
  import opened Wrappers
  import opened AmplitudeGroups
  import NumericToken

  /** What the angle view hands to the chart for each measurement. */
  datatype PolarPoint = PolarPoint(angle: real, value: real, amplitude: real)

  // ---------------------------------------------------------------------------
  // Colour scale
  // ---------------------------------------------------------------------------

  /** `Math.max(0, Math.min(1, (amplitude - 15000) / 15000))`. */
  function Normalized(amplitude: real): (n: real)
    ensures 0.0 <= n <= 1.0
    ensures amplitude <= 15000.0 ==> n == 0.0
    ensures amplitude >= 30000.0 ==> n == 1.0
    ensures 15000.0 <= amplitude <= 30000.0 ==> n * 15000.0 == amplitude - 15000.0
  {
    var x := (amplitude - 15000.0) / 15000.0;
    var upper := if 1.0 < x then 1.0 else x;
    if 0.0 > upper then 0.0 else upper
  }

  /** The hue of an amplitude: 240 (blue) at 15000 uA and below, 0 (red) at 30000 uA and above. */
  function Hue(amplitude: real): (h: real)
    ensures 0.0 <= h <= 240.0
  {
    240.0 * (1.0 - Normalized(amplitude))
  }

  /** The saturation in percent: 70 at the low end, 100 at the high end. */
  function Saturation(amplitude: real): (s: real)
    ensures 70.0 <= s <= 100.0
  {
    70.0 + Normalized(amplitude) * 30.0
  }

  /** A larger amplitude never gets a bluer hue or a paler saturation. */
  lemma ColourMonotone(a1: real, a2: real)
    requires a1 <= a2
    ensures Hue(a2) <= Hue(a1) && Saturation(a1) <= Saturation(a2)
  {
    var n1, n2 := Normalized(a1), Normalized(a2);
    assert n1 <= n2 by {
      if 15000.0 < a1 && a1 < 30000.0 && 15000.0 < a2 && a2 < 30000.0 {
        assert n1 * 15000.0 <= n2 * 15000.0;
      }
    }
  }

  // ---------------------------------------------------------------------------
  // Labels
  // ---------------------------------------------------------------------------

  const SlotCount: nat := 180

  /** The angle a slot index stands for: indices above 90 count back from -180. */
  function SignedAngle(index: nat): (a: int)
    requires index < SlotCount
    ensures -89 <= a <= 90
    ensures a == index || a == index - 180
  {
    if index <= 90 then index else index - 180
  }

  function Abs(x: int): (r: nat)
    ensures r == x || r == -x
  {
    if x < 0 then -x else x
  }

  /** `formatAngle`: "0°", "±90°", or the sign, the magnitude and the degree mark. */
  function FormatAngle(angle: int): (s: string)
    ensures s != ""
  {
    if angle == 0 then "0°"
    else if Abs(angle) == 90 then "±90°"
    else (if angle > 0 then "+" else "-") + NumericToken.NatToDecimal(Abs(angle)) + "°"
  }

  /** The label of a slot: empty unless the signed angle is a multiple of ten. */
  function Label(index: nat): string
    requires index < SlotCount
  {
    var a := SignedAngle(index);
    if Abs(a) % 10 != 0 then "" else FormatAngle(a)
  }

  /** `polarLabels`: one label per slot. */
  function Labels(): (ls: seq<string>)
    ensures |ls| == SlotCount
    ensures forall i :: 0 <= i < SlotCount ==> ls[i] == Label(i)
  {
    seq(SlotCount, i requires 0 <= i < SlotCount => Label(i))
  }

  /**
   * A slot is labelled exactly when its signed angle is a multiple of ten,
   * and reading the number in the label gives back the signed angle: "0°"
   * is 0, "±90°" is 90, and "+20°" or "-30°" carry their sign.
   */
  lemma LabelReadsBack(index: nat)
    requires index < SlotCount
    ensures Label(index) != "" <==> SignedAngle(index) % 10 == 0
    ensures Label(index) != "" ==> NumericToken.ParseSample(Label(index)) == Some(SignedAngle(index) as real)
  {
    var a := SignedAngle(index);
    TensIgnoreSign(a);
    if a % 10 == 0 {
      FormatReadsBack(a);
    }
  }

  /** A number is a multiple of ten exactly when its magnitude is. */
  lemma TensIgnoreSign(a: int)
    ensures Abs(a) % 10 == 0 <==> a % 10 == 0
  {
    if a < 0 {
      if a % 10 == 0 {
        assert -a == 10 * (-(a / 10));
      }
      if (-a) % 10 == 0 {
        assert a == 10 * (-((-a) / 10));
      }
    }
  }

  /** Every formatted angle but -90 (which shares "±90°" with 90) reads back as itself. */
  lemma FormatReadsBack(angle: int)
    requires angle != -90
    ensures NumericToken.ParseSample(FormatAngle(angle)) == Some(angle as real)
  {
    if angle == 0 {
      ZeroReadsBack();
    } else if Abs(angle) == 90 {
      NinetyReadsBack();
    } else {
      var pre := if angle > 0 then "+" else "-";
      assert FormatAngle(angle) == pre + NumericToken.NatToDecimal(Abs(angle)) + "°";
      NumericToken.ParseAfterPrefix(pre, Abs(angle), "°");
    }
  }

  lemma ZeroReadsBack()
    ensures NumericToken.ParseSample("0°") == Some(0.0)
  {
    assert NumericToken.NatToDecimal(0) == "0";
    assert "0°" == "" + NumericToken.NatToDecimal(0) + "°";
    NumericToken.ParseAfterPrefix("", 0, "°");
  }

  lemma NinetyReadsBack()
    ensures NumericToken.ParseSample("±90°") == Some(90.0)
  {
    assert NumericToken.NatToDecimal(9) == "9";
    assert NumericToken.NatToDecimal(90) == "90";
    assert "±90°" == "±" + NumericToken.NatToDecimal(90) + "°";
    NumericToken.ParseAfterPrefix("±", 90, "°");
  }

  // ---------------------------------------------------------------------------
  // Slots
  // ---------------------------------------------------------------------------

  /** `Math.round`: the nearest integer, halves rounded up. */
  function Round(x: real): (n: int)
    ensures n as real - 0.5 <= x < n as real + 0.5
  {
    (x + 0.5).Floor
  }

  /** JavaScript's `x % 180`: the remainder takes the sign of the dividend. */
  function TruncRem180(a: int): (r: int)
    ensures a >= 0 ==> r == a % 180
    ensures a < 0 ==> -180 < r <= 0 && (a - r) % 180 == 0
  {
    if a >= 0 then a % 180 else -((-a) % 180)
  }

  /** `((Math.round(angle) % 180) + 180) % 180`: the slot of an angle. */
  function Slot(angle: real): (slot: int)
    ensures 0 <= slot < SlotCount
    ensures slot == Round(angle) % 180
  {
    var n := Round(angle);
    var r := TruncRem180(n);
    SlotOfRemainder(n, r);
    TruncRem180(r + 180)
  }

  lemma SlotOfRemainder(n: int, r: int)
    requires -180 < r < 180 && (n - r) % 180 == 0
    ensures (r + 180) % 180 == n % 180
  {
    var q := (n - r) / 180;
    assert n == r + 180 * q;
  }

  /**
   * A measurement taken at a whole angle between 0 and 359 degrees lands in
   * the slot whose label angle differs from it by a multiple of 180: angles
   * past 90 are shown on the opposite side, and an angle and its opposite
   * share one slot.
   */
  lemma SlotAngle(d: int)
    requires 0 <= d < 360
    ensures Slot(d as real) < SlotCount
    ensures SignedAngle(Slot(d as real)) == if d <= 90 then d else if d <= 270 then d - 180 else d - 360
  {
    assert Round(d as real) == d;
  }

  /** The value shown in a slot: that of the last point falling into it, if any. */
  function SlotValue(points: seq<PolarPoint>, slot: int): Option<real>
  {
    if points == [] then None
    else if Slot(points[|points| - 1].angle) == slot then Some(points[|points| - 1].value)
    else SlotValue(points[..|points| - 1], slot)
  }

  /**
   * A slot is empty exactly when no point falls into it; otherwise it shows
   * the value of a point that falls into it and after which no other does.
   */
  lemma SlotValueIsLast(points: seq<PolarPoint>, slot: int)
    ensures SlotValue(points, slot).None? <==> forall i :: 0 <= i < |points| ==> Slot(points[i].angle) != slot
    ensures SlotValue(points, slot).Some? ==>
      exists i :: 0 <= i < |points| && Slot(points[i].angle) == slot
        && points[i].value == SlotValue(points, slot).value
        && forall j :: i < j < |points| ==> Slot(points[j].angle) != slot
  {
    EmptySlotHasNoPoint(points, slot);
    if SlotValue(points, slot).Some? {
      var i := LastPointOfSlot(points, slot);
    }
  }

  /** A slot is empty exactly when no point falls into it. */
  lemma {:induction false} EmptySlotHasNoPoint(points: seq<PolarPoint>, slot: int)
    ensures SlotValue(points, slot).None? <==> forall i :: 0 <= i < |points| ==> Slot(points[i].angle) != slot
  {
    if points != [] {
      var init := points[..|points| - 1];
      EmptySlotHasNoPoint(init, slot);
      assert forall i :: 0 <= i < |init| ==> init[i] == points[i];
    }
  }

  /** A filled slot shows the value of the last point that falls into it. */
  lemma {:induction false} LastPointOfSlot(points: seq<PolarPoint>, slot: int) returns (i: nat)
    requires SlotValue(points, slot).Some?
    ensures i < |points| && Slot(points[i].angle) == slot
    ensures points[i].value == SlotValue(points, slot).value
    ensures forall j :: i < j < |points| ==> Slot(points[j].angle) != slot
  {
    var last := |points| - 1;
    if Slot(points[last].angle) == slot {
      i := last;
    } else {
      var init := points[..last];
      i := LastPointOfSlot(init, slot);
      assert points[i] == init[i];
      assert forall j :: i < j < |init| ==> points[j] == init[j];
    }
  }

  /** `new Array(180).fill(null)` and then one write per point, in list order. */
  method FillSlots(points: seq<PolarPoint>) returns (values: array<Option<real>>)
    ensures fresh(values) && values.Length == SlotCount
    ensures forall slot :: 0 <= slot < SlotCount ==> values[slot] == SlotValue(points, slot)
  {
    values := new Option<real>[SlotCount](_ => None);
    for i := 0 to |points|
      invariant forall slot :: 0 <= slot < SlotCount ==> values[slot] == SlotValue(points[..i], slot)
    {
      assert points[..i + 1][..i] == points[..i];
      values[Slot(points[i].angle)] := Some(points[i].value);
    }
    assert points[..|points|] == points;
  }

  // ---------------------------------------------------------------------------
  // Datasets
  // ---------------------------------------------------------------------------

  datatype Dataset = Dataset(amplitude: real, values: seq<Option<real>>, hue: real)

  function AmplitudeOf(p: PolarPoint): real
  {
    p.amplitude
  }

  function SlotsOf(points: seq<PolarPoint>): (vs: seq<Option<real>>)
    ensures |vs| == SlotCount
    ensures forall slot :: 0 <= slot < SlotCount ==> vs[slot] == SlotValue(points, slot)
  {
    seq(SlotCount, slot requires 0 <= slot < SlotCount => SlotValue(points, slot))
  }

  /** `chartData.datasets`: one dataset per amplitude, in ascending amplitude. */
  function DatasetsOf(data: seq<PolarPoint>): (ds: seq<Dataset>)
    ensures var ks := SortedKeys(FirstKeys(data, AmplitudeOf));
      && |ds| == |ks|
      && forall k :: 0 <= k < |ds| ==> ds[k].amplitude == ks[k]
  {
    var ks := SortedKeys(FirstKeys(data, AmplitudeOf));
    seq(|ks|, k requires 0 <= k < |ks| =>
      Dataset(ks[k], SlotsOf(Group(data, AmplitudeOf, ks[k])), Hue(ks[k])))
  }

  /** Builds the datasets from the group map, filling each dataset's slot array in place. */
  method BuildDatasets(data: seq<PolarPoint>) returns (datasets: seq<Dataset>)
    ensures datasets == DatasetsOf(data)
  {
    var keys, groups := GroupBy(data, AmplitudeOf);
    FirstKeysDistinct(data, AmplitudeOf);
    SortedKeysAscending(keys);
    var sorted := SortedKeys(keys);
    datasets := [];
    for k := 0 to |sorted|
      invariant |datasets| == k
      invariant forall j :: 0 <= j < k ==> datasets[j] == DatasetsOf(data)[j]
    {
      var amplitude := sorted[k];
      var values := FillSlots(groups[amplitude]);
      assert values[..] == SlotsOf(Group(data, AmplitudeOf, amplitude));
      datasets := datasets + [Dataset(amplitude, values[..], Hue(amplitude))];
    }
  }

  /**
   * The datasets come in strictly ascending amplitude, one for each
   * amplitude that occurs; each shows in every slot the last of its own
   * points that falls there.
   */
  lemma DatasetsShape(data: seq<PolarPoint>)
    ensures var ds := DatasetsOf(data);
      && (forall i, j :: 0 <= i < j < |ds| ==> ds[i].amplitude < ds[j].amplitude)
      && (forall k :: 0 <= k < |ds| ==> exists i :: 0 <= i < |data| && data[i].amplitude == ds[k].amplitude)
      && (forall k :: 0 <= k < |ds| ==> ds[k].values == SlotsOf(Group(data, AmplitudeOf, ds[k].amplitude)))
      && (forall k :: 0 <= k < |ds| ==> 0.0 <= ds[k].hue <= 240.0)
  {
    var ks := FirstKeys(data, AmplitudeOf);
    FirstKeysDistinct(data, AmplitudeOf);
    SortedKeysAscending(ks);
    var ds := DatasetsOf(data);
    var sorted := SortedKeys(ks);
    forall k | 0 <= k < |ds|
      ensures exists i :: 0 <= i < |data| && data[i].amplitude == ds[k].amplitude
    {
      assert sorted[k] in ks;
      var i :| 0 <= i < |data| && AmplitudeOf(data[i]) == sorted[k];
    }
  }

  /** Every amplitude that occurs has its dataset. */
  lemma DatasetsCoverData(data: seq<PolarPoint>)
    ensures var ds := DatasetsOf(data);
      forall i :: 0 <= i < |data| ==> exists k :: 0 <= k < |ds| && ds[k].amplitude == data[i].amplitude
  {
    var ks := FirstKeys(data, AmplitudeOf);
    FirstKeysDistinct(data, AmplitudeOf);
    SortedKeysAscending(ks);
    var ds := DatasetsOf(data);
    var sorted := SortedKeys(ks);
    forall i | 0 <= i < |data|
      ensures exists k :: 0 <= k < |ds| && ds[k].amplitude == data[i].amplitude
    {
      var a := data[i].amplitude;
      assert AmplitudeOf(data[i]) == a;
      assert exists j :: 0 <= j < |data| && AmplitudeOf(data[j]) == a;
      assert a in ks;
      assert a in sorted;
      var k :| 0 <= k < |sorted| && sorted[k] == a;
      assert ds[k].amplitude == a;
    }
  }
}
