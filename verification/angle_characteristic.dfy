/**
 * The angle view of lapogen: the LED is driven at a chosen amplitude (500 Hz,
 * offset half the amplitude) and the detector voltage is stored against the
 * arm angle; the points are kept sorted by amplitude, then angle, and shown
 * on the polar chart.
 */
module AngleCharacteristic {
  import opened Wrappers
  import opened ArrayOps
  import opened GeneratorParams
  import PolarChart

  /** One measured point: angle in degrees, voltage in volts, amplitude in microamperes. */
  datatype AngleData = AngleData(angle: real, voltage: real, amplitude: real)

  datatype AddError = AmplitudeOutOfRange | AngleOutOfRange

  /**
   * `handleAddPoint`: the amplitude (0 to 30000 uA) is checked first, then the
   * angle, which must lie in [0, 360).
   */
  function AddPoint(amplitudeInput: NumberInput, angleInput: NumberInput): (r: Result<Params, AddError>)
    ensures r == Err(AmplitudeOutOfRange) <==> !InRange(amplitudeInput, 0.0, MaxCurrent)
    ensures r == Err(AngleOutOfRange) <==>
      InRange(amplitudeInput, 0.0, MaxCurrent) && !(angleInput.Some? && 0.0 <= angleInput.value < 360.0)
    ensures r.Ok? ==>
      r.value.amplitude == amplitudeInput.value && r.value.frequency == 500.0
      && r.value.offset * 2.0 == r.value.amplitude
  {
    if amplitudeInput.None? || amplitudeInput.value < 0.0 || amplitudeInput.value > MaxCurrent then Err(AmplitudeOutOfRange)
    else if angleInput.None? || angleInput.value < 0.0 || angleInput.value >= 360.0 then Err(AngleOutOfRange)
    else Ok(Params(amplitudeInput.value, 500.0, amplitudeInput.value / 2.0))
  }

  /** The comparator `(a, b) => a.amplitude - b.amplitude || a.angle - b.angle`. */
  function AmplitudeAngleKey(p: AngleData): Key
  {
    Key(p.amplitude, p.angle)
  }

  /** `handleSaveMeasurement`: the point joins the list, sorted by amplitude and then by angle. */
  function Save(data: seq<AngleData>, amplitude: real, angle: real, voltage: real): (r: seq<AngleData>)
    ensures |r| == |data| + 1
    ensures multiset(r) == multiset(data) + multiset{AngleData(angle, voltage, amplitude)}
    ensures SortedBy(r, AmplitudeAngleKey)
  {
    var point := AngleData(angle, voltage, amplitude);
    SortBySortsAndPermutes(data + [point], AmplitudeAngleKey);
    SortBy(data + [point], AmplitudeAngleKey)
  }

  /**
   * In a sorted list a new point goes after every point of smaller amplitude
   * or of equal amplitude and no larger angle, and before all others.
   */
  lemma SaveInsertsLexicographically(data: seq<AngleData>, amplitude: real, angle: real, voltage: real) returns (k: nat)
    requires SortedBy(data, AmplitudeAngleKey)
    ensures k <= |data|
    ensures Save(data, amplitude, angle, voltage) == data[..k] + [AngleData(angle, voltage, amplitude)] + data[k..]
    ensures forall i :: 0 <= i < k ==>
      data[i].amplitude < amplitude || (data[i].amplitude == amplitude && data[i].angle <= angle)
    ensures forall i :: k <= i < |data| ==>
      data[i].amplitude > amplitude || (data[i].amplitude == amplitude && data[i].angle > angle)
  {
    k := SortAppendedIsInsert(data, AngleData(angle, voltage, amplitude), AmplitudeAngleKey);
  }

  /** `handleDelete(index)`: every point but the one at `index`, in order. */
  function Delete(data: seq<AngleData>, index: int): (r: seq<AngleData>)
    ensures |r| == if 0 <= index < |data| then |data| - 1 else |data|
    ensures forall j :: 0 <= j < |r| ==> r[j] == if 0 <= index <= j then data[j + 1] else data[j]
  {
    RemoveAt(data, index)
  }

  /** Deleting keeps the list sorted. */
  lemma DeleteKeepsSorted(data: seq<AngleData>, index: int)
    requires SortedBy(data, AmplitudeAngleKey)
    ensures SortedBy(Delete(data, index), AmplitudeAngleKey)
  {
    if 0 <= index < |data| {
      assert Delete(data, index) == data[..index] + data[index + 1..];
    }
  }

  /** `polarData`: each point as a chart point whose value is its voltage, in list order. */
  function PolarData(data: seq<AngleData>): (ps: seq<PolarChart.PolarPoint>)
    ensures |ps| == |data|
    ensures forall i :: 0 <= i < |data| ==>
      ps[i].angle == data[i].angle && ps[i].value == data[i].voltage && ps[i].amplitude == data[i].amplitude
  {
    seq(|data|, i requires 0 <= i < |data| => PolarChart.PolarPoint(data[i].angle, data[i].voltage, data[i].amplitude))
  }
}
