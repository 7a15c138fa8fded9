/**
 * The lux-ampere view of lapogen: the LED is driven at a chosen amplitude
 * (500 Hz, offset half the amplitude) and the photodetector voltage is
 * stored against that amplitude, kept in the `current` field.
 */
module LuxAmper {
  import opened Wrappers
  import opened ArrayOps
  import opened GeneratorParams

  /** One measured point: drive current in microamperes, voltage in volts. */
  datatype LuxAmperData = LuxAmperData(current: real, voltage: real)

  datatype AddError = AmplitudeOutOfRange

  /** `handleAddPoint`: an amplitude between 0 and 30000 uA drives the LED at 500 Hz with half of it as offset. */
  function AddPoint(amplitudeInput: NumberInput): (r: Result<Params, AddError>)
    ensures r.Ok? <==> InRange(amplitudeInput, 0.0, MaxCurrent)
    ensures r.Ok? ==> r.value.amplitude == amplitudeInput.value && r.value.frequency == 500.0
    ensures r.Ok? ==> r.value.offset * 2.0 == r.value.amplitude
  {
    if amplitudeInput.None? || amplitudeInput.value < 0.0 || amplitudeInput.value > MaxCurrent then Err(AmplitudeOutOfRange)
    else Ok(Params(amplitudeInput.value, 500.0, amplitudeInput.value / 2.0))
  }

  /** The comparator `(a, b) => a.current - b.current`. */
  function CurrentKey(p: LuxAmperData): Key
  {
    Key(p.current, 0.0)
  }

  /** `handleSaveMeasurement`: the point joins the list, which is sorted by current; equal currents may repeat. */
  function Save(data: seq<LuxAmperData>, amplitude: real, voltage: real): (r: seq<LuxAmperData>)
    ensures |r| == |data| + 1
    ensures multiset(r) == multiset(data) + multiset{LuxAmperData(amplitude, voltage)}
    ensures SortedBy(r, CurrentKey)
  {
    var point := LuxAmperData(amplitude, voltage);
    SortBySortsAndPermutes(data + [point], CurrentKey);
    SortBy(data + [point], CurrentKey)
  }

  /** `handleDelete(index)`: every point but the one at `index`, in order. */
  function Delete(data: seq<LuxAmperData>, index: int): (r: seq<LuxAmperData>)
    ensures |r| == if 0 <= index < |data| then |data| - 1 else |data|
    ensures forall j :: 0 <= j < |r| ==> r[j] == if 0 <= index <= j then data[j + 1] else data[j]
  {
    RemoveAt(data, index)
  }

  /**
   * In a sorted list a new point goes right after every point whose current
   * is not greater, so a repeated current lands after the earlier ones.
   */
  lemma SaveInsertsAfterEqual(data: seq<LuxAmperData>, amplitude: real, voltage: real) returns (k: nat)
    requires SortedBy(data, CurrentKey)
    ensures k <= |data| && Save(data, amplitude, voltage) == data[..k] + [LuxAmperData(amplitude, voltage)] + data[k..]
    ensures forall i :: 0 <= i < k ==> data[i].current <= amplitude
    ensures forall i :: k <= i < |data| ==> data[i].current > amplitude
  {
    k := SortAppendedIsInsert(data, LuxAmperData(amplitude, voltage), CurrentKey);
  }

  /** Deleting keeps the list sorted. */
  lemma DeleteKeepsSorted(data: seq<LuxAmperData>, index: int)
    requires SortedBy(data, CurrentKey)
    ensures SortedBy(Delete(data, index), CurrentKey)
  {
    if 0 <= index < |data| {
      assert Delete(data, index) == data[..index] + data[index + 1..];
    }
  }
}
