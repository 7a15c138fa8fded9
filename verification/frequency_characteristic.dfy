/**
 * The frequency characteristic view of lapogen: the LED is driven at a
 * chosen amplitude and frequency (offset half the amplitude) while the arm
 * stands at zero angle, and the detector voltage is stored. The chart shows
 * one series per amplitude.
 */
module FrequencyCharacteristic {
  import opened Wrappers
  import opened ArrayOps
  import opened GeneratorParams
  import opened AmplitudeGroups

  /** One measured point; `id` is the identifier generated when it was saved. */
  datatype FrequencyData = FrequencyData(id: string, frequency: real, voltage: real, amplitude: real)

  datatype AddError = AmplitudeOutOfRange | FrequencyOutOfRange | ArmNotAtZero

  /** The arm may deviate at most this many degrees from zero. */
  const AngleTolerance: real := 5.0
  const MaxFrequency: real := 100000.0

  function Abs(x: real): (r: real)
    ensures r >= 0.0 && (r == x || r == -x)
  {
    if x < 0.0 then -x else x
  }

  /**
   * `handleAddPoint`: the amplitude (0 to 30000 uA) is checked first, then the
   * frequency (1 to 100000 Hz), then the arm angle reported by the device,
   * which must be known and within 5 degrees of zero.
   */
  function AddPoint(amplitudeInput: NumberInput, frequencyInput: NumberInput, angle: Option<real>): (r: Result<Params, AddError>)
    ensures r == Err(AmplitudeOutOfRange) <==> !InRange(amplitudeInput, 0.0, MaxCurrent)
    ensures r == Err(FrequencyOutOfRange) <==>
      InRange(amplitudeInput, 0.0, MaxCurrent) && !InRange(frequencyInput, 1.0, MaxFrequency)
    ensures r == Err(ArmNotAtZero) <==>
      InRange(amplitudeInput, 0.0, MaxCurrent) && InRange(frequencyInput, 1.0, MaxFrequency)
      && (angle.None? || angle.value > AngleTolerance || angle.value < -AngleTolerance)
    ensures r.Ok? ==>
      r.value.amplitude == amplitudeInput.value && r.value.frequency == frequencyInput.value
      && r.value.offset * 2.0 == r.value.amplitude
  {
    if amplitudeInput.None? || amplitudeInput.value < 0.0 || amplitudeInput.value > MaxCurrent then Err(AmplitudeOutOfRange)
    else if frequencyInput.None? || frequencyInput.value < 1.0 || frequencyInput.value > MaxFrequency then Err(FrequencyOutOfRange)
    else if angle.None? || Abs(angle.value) > AngleTolerance then Err(ArmNotAtZero)
    else Ok(Params(amplitudeInput.value, frequencyInput.value, amplitudeInput.value / 2.0))
  }

  /** The comparator `(a, b) => a.frequency - b.frequency`. */
  function FrequencyKey(p: FrequencyData): Key
  {
    Key(p.frequency, 0.0)
  }

  /** `handleSaveMeasurement`: the point joins the list, which is sorted by frequency. */
  function Save(data: seq<FrequencyData>, id: string, amplitude: real, frequency: real, voltage: real): (r: seq<FrequencyData>)
    ensures |r| == |data| + 1
    ensures multiset(r) == multiset(data) + multiset{FrequencyData(id, frequency, voltage, amplitude)}
    ensures SortedBy(r, FrequencyKey)
  {
    var point := FrequencyData(id, frequency, voltage, amplitude);
    SortBySortsAndPermutes(data + [point], FrequencyKey);
    SortBy(data + [point], FrequencyKey)
  }

  /** In a sorted list a new point goes right after every point whose frequency is not greater. */
  lemma SaveInsertsAfterEqual(data: seq<FrequencyData>, id: string, amplitude: real, frequency: real, voltage: real)
    returns (k: nat)
    requires SortedBy(data, FrequencyKey)
    ensures k <= |data|
    ensures Save(data, id, amplitude, frequency, voltage) == data[..k] + [FrequencyData(id, frequency, voltage, amplitude)] + data[k..]
    ensures forall i :: 0 <= i < k ==> data[i].frequency <= frequency
    ensures forall i :: k <= i < |data| ==> data[i].frequency > frequency
  {
    k := SortAppendedIsInsert(data, FrequencyData(id, frequency, voltage, amplitude), FrequencyKey);
  }

  /** `handleDelete(index)`: every point but the one at `index`, in order. */
  function Delete(data: seq<FrequencyData>, index: int): (r: seq<FrequencyData>)
    ensures |r| == if 0 <= index < |data| then |data| - 1 else |data|
    ensures forall j :: 0 <= j < |r| ==> r[j] == if 0 <= index <= j then data[j + 1] else data[j]
  {
    RemoveAt(data, index)
  }

  // ---------------------------------------------------------------------------
  // Chart series, one per amplitude
  // ---------------------------------------------------------------------------

  const ChartColors: seq<string> :=
    ["#3b82f6", "#ef4444", "#10b981", "#f59e0b", "#8b5cf6", "#ec4899", "#06b6d4", "#f97316"]

  function AmplitudeOf(p: FrequencyData): real
  {
    p.amplitude
  }

  /** A chart point: frequency on x, voltage on y. */
  datatype XY = XY(x: real, y: real)

  datatype Series = Series(amplitude: real, points: seq<XY>, color: string)

  function PointsOf(g: seq<FrequencyData>): (ps: seq<XY>)
    ensures |ps| == |g|
    ensures forall i :: 0 <= i < |g| ==> ps[i] == XY(g[i].frequency, g[i].voltage)
  {
    seq(|g|, i requires 0 <= i < |g| => XY(g[i].frequency, g[i].voltage))
  }

  /** `chartSeries`: the groups in ascending amplitude, the k-th coloured with palette entry k mod 8. */
  function SeriesOf(data: seq<FrequencyData>): (s: seq<Series>)
    ensures var ks := SortedKeys(FirstKeys(data, AmplitudeOf));
      && |s| == |ks|
      && forall k :: 0 <= k < |s| ==> s[k].amplitude == ks[k] && s[k].color == ChartColors[k % 8]
  {
    var ks := SortedKeys(FirstKeys(data, AmplitudeOf));
    seq(|ks|, k requires 0 <= k < |ks| =>
      Series(ks[k], PointsOf(Group(data, AmplitudeOf, ks[k])), ChartColors[k % |ChartColors|]))
  }

  /** Builds the series from the group map filled by one pass over the points. */
  method BuildChartSeries(data: seq<FrequencyData>) returns (series: seq<Series>)
    ensures series == SeriesOf(data)
  {
    var keys, groups := GroupBy(data, AmplitudeOf);
    FirstKeysDistinct(data, AmplitudeOf);
    SortedKeysAscending(keys);
    var sorted := SortedKeys(keys);
    series := [];
    for idx := 0 to |sorted|
      invariant |series| == idx
      invariant forall k :: 0 <= k < idx ==> series[k] == SeriesOf(data)[k]
    {
      var amplitude := sorted[idx];
      series := series + [Series(amplitude, PointsOf(groups[amplitude]), ChartColors[idx % |ChartColors|])];
    }
  }

  /**
   * The series come in strictly ascending amplitude, one for each amplitude
   * that occurs; the k-th has palette colour k mod 8; every point is shown in
   * the series of its own amplitude and in no other, in list order.
   */
  lemma SeriesShape(data: seq<FrequencyData>)
    ensures var s := SeriesOf(data);
      && (forall i, j :: 0 <= i < j < |s| ==> s[i].amplitude < s[j].amplitude)
      && (forall k :: 0 <= k < |s| ==> s[k].color == ChartColors[k % 8])
      && (forall k :: 0 <= k < |s| ==> exists i :: 0 <= i < |data| && data[i].amplitude == s[k].amplitude)
      && (forall i :: 0 <= i < |data| ==> exists k :: 0 <= k < |s| && s[k].amplitude == data[i].amplitude)
      && (forall k :: 0 <= k < |s| ==> s[k].points == PointsOf(Group(data, AmplitudeOf, s[k].amplitude)))
  {
    SeriesAscending(data);
    SeriesPoints(data);
    SeriesCoverData(data);
    SeriesFromData(data);
  }

  lemma SeriesAscending(data: seq<FrequencyData>)
    ensures var s := SeriesOf(data);
      forall i, j :: 0 <= i < j < |s| ==> s[i].amplitude < s[j].amplitude
  {
    FirstKeysDistinct(data, AmplitudeOf);
    SortedKeysAscending(FirstKeys(data, AmplitudeOf));
  }

  lemma SeriesPoints(data: seq<FrequencyData>)
    ensures var s := SeriesOf(data);
      forall k :: 0 <= k < |s| ==> s[k].points == PointsOf(Group(data, AmplitudeOf, s[k].amplitude))
  {
  }

  lemma SeriesCoverData(data: seq<FrequencyData>)
    ensures var s := SeriesOf(data);
      forall i :: 0 <= i < |data| ==> exists k :: 0 <= k < |s| && s[k].amplitude == data[i].amplitude
  {
    var ks := FirstKeys(data, AmplitudeOf);
    FirstKeysDistinct(data, AmplitudeOf);
    SortedKeysAscending(ks);
    var s := SeriesOf(data);
    var sorted := SortedKeys(ks);
    forall i | 0 <= i < |data|
      ensures exists k :: 0 <= k < |s| && s[k].amplitude == data[i].amplitude
    {
      var a := data[i].amplitude;
      assert AmplitudeOf(data[i]) == a;
      assert exists j :: 0 <= j < |data| && AmplitudeOf(data[j]) == a;
      assert a in ks;
      assert a in sorted;
      var k :| 0 <= k < |sorted| && sorted[k] == a;
      assert s[k].amplitude == a;
    }
  }

  lemma SeriesFromData(data: seq<FrequencyData>)
    ensures var s := SeriesOf(data);
      forall k :: 0 <= k < |s| ==> exists i :: 0 <= i < |data| && data[i].amplitude == s[k].amplitude
  {
    var ks := FirstKeys(data, AmplitudeOf);
    FirstKeysDistinct(data, AmplitudeOf);
    SortedKeysAscending(ks);
    var s := SeriesOf(data);
    var sorted := SortedKeys(ks);
    forall k | 0 <= k < |s|
      ensures exists i :: 0 <= i < |data| && data[i].amplitude == s[k].amplitude
    {
      assert sorted[k] in ks;
      var i :| 0 <= i < |data| && AmplitudeOf(data[i]) == sorted[k];
    }
  }
}
