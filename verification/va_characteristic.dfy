/**
 * The volt-ampere characteristic view of lapogen: the user picks a DC
 * current, the generator is set to it, and the measured voltage is stored
 * against the current. A second measurement at the same current replaces
 * the first one in place.
 */
module VACharacteristic {
  import opened Wrappers
  import opened ArrayOps
  import opened GeneratorParams

  /** One measured point: current in microamperes, voltage in volts. */
  datatype VAData = VAData(current: real, voltage: real)

  datatype AddError = CurrentOutOfRange

  /**
   * `handleAddPoint`: a current between 1 and 30000 uA sets the generator to a
   * pure DC offset of that current (amplitude 0, frequency 1000 Hz).
   */
  function AddPoint(currentInput: NumberInput): (r: Result<Params, AddError>)
    ensures r.Ok? <==> InRange(currentInput, 1.0, MaxCurrent)
    ensures r.Ok? ==> r.value.amplitude == 0.0 && r.value.frequency == 1000.0
    ensures r.Ok? ==> r.value.offset == currentInput.value
  {
    if currentInput.None? || currentInput.value < 1.0 || currentInput.value > MaxCurrent then Err(CurrentOutOfRange)
    else Ok(Params(0.0, 1000.0, currentInput.value))
  }

  /** The comparator `(a, b) => a.current - b.current`. */
  function CurrentKey(p: VAData): Key
  {
    Key(p.current, 0.0)
  }

  /** `data.findIndex((d) => d.current === current)`: the first index with that current, or -1. */
  function FindIndex(data: seq<VAData>, current: real): (i: int)
    ensures -1 <= i < |data|
    ensures i >= 0 ==> data[i].current == current
    ensures forall k :: 0 <= k < |data| && (i == -1 || k < i) ==> data[k].current != current
  {
    if data == [] then -1
    else if data[0].current == current then 0
    else
      var j := FindIndex(data[1..], current);
      if j == -1 then -1 else j + 1
  }

  /**
   * `handleSaveMeasurement`: an existing point with the same current is
   * replaced where it stands; otherwise the new point is added and the list
   * is sorted by current.
   */
  function Save(data: seq<VAData>, current: real, voltage: real): (r: seq<VAData>)
    ensures var i := FindIndex(data, current);
      && (i != -1 ==>
            |r| == |data| && r[i] == VAData(current, voltage)
            && forall j :: 0 <= j < |data| && j != i ==> r[j] == data[j])
      && (i == -1 ==>
            |r| == |data| + 1
            && multiset(r) == multiset(data) + multiset{VAData(current, voltage)}
            && SortedBy(r, CurrentKey))
  {
    var point := VAData(current, voltage);
    var i := FindIndex(data, current);
    if i != -1 then data[i := point]
    else
      SortBySortsAndPermutes(data + [point], CurrentKey);
      SortBy(data + [point], CurrentKey)
  }

  /** `handleDelete(index)`: every point but the one at `index`, in order. */
  function Delete(data: seq<VAData>, index: int): (r: seq<VAData>)
    ensures |r| == if 0 <= index < |data| then |data| - 1 else |data|
    ensures forall j :: 0 <= j < |r| ==> r[j] == if 0 <= index <= j then data[j + 1] else data[j]
  {
    RemoveAt(data, index)
  }

  /** Currents strictly increase along the list: sorted, and no current twice. */
  predicate StrictlyAscending(data: seq<VAData>)
  {
    forall i, j :: 0 <= i < j < |data| ==> data[i].current < data[j].current
  }

  /**
   * Saving keeps the list sorted by current without duplicates: an equal
   * current is replaced, a new one goes between its neighbours.
   */
  lemma SaveKeepsAscending(data: seq<VAData>, current: real, voltage: real)
    requires StrictlyAscending(data)
    ensures StrictlyAscending(Save(data, current, voltage))
    ensures exists j :: 0 <= j < |Save(data, current, voltage)| && Save(data, current, voltage)[j] == VAData(current, voltage)
  {
    var point := VAData(current, voltage);
    var r := Save(data, current, voltage);
    var i := FindIndex(data, current);
    if i != -1 {
      assert r[i] == point;
    } else {
      var k := SortAppendedIsInsert(data, point, CurrentKey);
      assert r == data[..k] + [point] + data[k..];
      InsertedStaysAscending(data, point, k);
      assert r[k] == point;
    }
  }

  /** A point placed between the smaller and the larger currents keeps the currents strictly ascending. */
  lemma InsertedStaysAscending(data: seq<VAData>, point: VAData, k: nat)
    requires StrictlyAscending(data) && k <= |data|
    requires forall i :: 0 <= i < k ==> data[i].current < point.current
    requires forall i :: k <= i < |data| ==> point.current < data[i].current
    ensures StrictlyAscending(data[..k] + [point] + data[k..])
  {
    var r := data[..k] + [point] + data[k..];
    forall a, b | 0 <= a < b < |r|
      ensures r[a].current < r[b].current
    {
      if b < k {
        assert r[a] == data[a] && r[b] == data[b];
      } else if a > k {
        assert r[a] == data[a - 1] && r[b] == data[b - 1];
      } else if a == k {
        assert r[b] == data[b - 1];
      } else if b == k {
        assert r[a] == data[a];
      } else {
        assert r[a] == data[a] && r[b] == data[b - 1];
      }
    }
  }

  /** No current occurs twice; the list need not be sorted. */
  predicate DistinctCurrents(data: seq<VAData>)
  {
    forall i, j :: 0 <= i < j < |data| ==> data[i].current != data[j].current
  }

  /**
   * Saving never brings a second point with the same current into a list
   * without duplicates, whatever its order: an equal current is replaced in
   * place, and a new one was absent before.
   */
  lemma SaveKeepsDistinct(data: seq<VAData>, current: real, voltage: real)
    requires DistinctCurrents(data)
    ensures DistinctCurrents(Save(data, current, voltage))
    ensures VAData(current, voltage) in Save(data, current, voltage)
  {
    var point := VAData(current, voltage);
    var r := Save(data, current, voltage);
    var i := FindIndex(data, current);
    if i != -1 {
      assert r[i] == point;
      forall a, b | 0 <= a < b < |r|
        ensures r[a].current != r[b].current
      {
        assert r[a].current == data[a].current && r[b].current == data[b].current;
      }
    } else {
      var t := data + [point];
      assert DistinctCurrents(t) by {
        forall a, b | 0 <= a < b < |t|
          ensures t[a].current != t[b].current
        {
          if b == |data| {
            assert t[a] == data[a];
          } else {
            assert t[a] == data[a] && t[b] == data[b];
          }
        }
      }
      PermutationKeepsDistinct(t, r);
      assert point in multiset(r);
    }
  }

  /** Reordering a list with distinct currents keeps them distinct. */
  lemma PermutationKeepsDistinct(t: seq<VAData>, r: seq<VAData>)
    requires DistinctCurrents(t) && multiset(r) == multiset(t)
    ensures DistinctCurrents(r)
  {
    forall a, b | 0 <= a < b < |r|
      ensures r[a].current != r[b].current
    {
      assert r[a] in multiset(t) && r[b] in multiset(t);
      SameCurrentSamePoint(t, r[a], r[b]);
      CountedOnce(t, r[a]);
      TwiceCountedIfEqual(r, a, b);
    }
  }

  /** Two points of a list with distinct currents that share a current are the same point. */
  lemma SameCurrentSamePoint(t: seq<VAData>, x: VAData, y: VAData)
    requires DistinctCurrents(t) && x in t && y in t
    ensures x.current == y.current ==> x == y
  {
    var i :| 0 <= i < |t| && t[i] == x;
    var j :| 0 <= j < |t| && t[j] == y;
    assert i < j ==> t[i].current != t[j].current;
    assert j < i ==> t[j].current != t[i].current;
  }

  /** In a list with distinct currents every point occurs at most once. */
  lemma {:induction false} CountedOnce(t: seq<VAData>, x: VAData)
    requires DistinctCurrents(t)
    ensures multiset(t)[x] <= 1
  {
    if t != [] {
      var init := t[..|t| - 1];
      assert DistinctCurrents(init);
      CountedOnce(init, x);
      assert t == init + [t[|t| - 1]];
      assert forall k :: 0 <= k < |init| ==> init[k].current != t[|t| - 1].current;
      assert t[|t| - 1] !in init;
    }
  }

  /** Equal points at two positions are counted twice. */
  lemma TwiceCountedIfEqual(r: seq<VAData>, a: nat, b: nat)
    requires a < b < |r|
    ensures r[a] == r[b] ==> multiset(r)[r[a]] >= 2
  {
    if r[a] == r[b] {
      TwiceCounted(r, a, b);
    }
  }

  /** Deleting keeps the list sorted by current without duplicates. */
  lemma DeleteKeepsAscending(data: seq<VAData>, index: int)
    requires StrictlyAscending(data)
    ensures StrictlyAscending(Delete(data, index))
  {
    if 0 <= index < |data| {
      assert Delete(data, index) == data[..index] + data[index + 1..];
    }
  }
}
