/**
 * Grouping measured points by amplitude, as both the frequency view and the
 * polar chart do: a `Map` from amplitude to the list of its points, filled by
 * one pass that creates a group on first sight of an amplitude and pushes
 * every point into its group; the amplitudes are then sorted ascending.
 */
module AmplitudeGroups {
  import opened ArrayOps

  /** The points whose key is `k`, in their original order. */
  function Group<T>(s: seq<T>, key: T -> real, k: real): (g: seq<T>)
    ensures |g| <= |s|
  {
    if s == [] then []
    else
      var g := Group(s[..|s| - 1], key, k);
      if key(s[|s| - 1]) == k then g + [s[|s| - 1]] else g
  }

  /** The distinct keys in order of first appearance: the key order of the `Map`. */
  function FirstKeys<T>(s: seq<T>, key: T -> real): (ks: seq<real>)
  {
    if s == [] then []
    else
      var ks := FirstKeys(s[..|s| - 1], key);
      if key(s[|s| - 1]) in ks then ks else ks + [key(s[|s| - 1])]
  }

  predicate Distinct(ks: seq<real>)
  {
    forall i, j :: 0 <= i < j < |ks| ==> ks[i] != ks[j]
  }

  /** A point is in the group of `k` exactly when it is one of the points and its key is `k`. */
  lemma {:induction false} GroupMembers<T>(s: seq<T>, key: T -> real, k: real, x: T)
    ensures x in Group(s, key, k) <==> x in s && key(x) == k
  {
    if s != [] {
      var init := s[..|s| - 1];
      GroupMembers(init, key, k, x);
      assert s == init + [s[|s| - 1]];
    }
  }

  /** Grouping the concatenation of two runs of points concatenates their groups: order is kept. */
  lemma {:induction false} GroupConcat<T>(a: seq<T>, b: seq<T>, key: T -> real, k: real)
    ensures Group(a + b, key, k) == Group(a, key, k) + Group(b, key, k)
    decreases |b|
  {
    if b == [] {
      assert a + b == a;
    } else {
      var binit, last := b[..|b| - 1], b[|b| - 1];
      GroupConcat(a, binit, key, k);
      assert (a + b)[..|a + b| - 1] == a + binit && (a + b)[|a + b| - 1] == last;
      if key(last) == k {
        assert Group(a + b, key, k) == Group(a + binit, key, k) + [last];
        assert Group(b, key, k) == Group(binit, key, k) + [last];
      } else {
        assert Group(a + b, key, k) == Group(a + binit, key, k);
        assert Group(b, key, k) == Group(binit, key, k);
      }
    }
  }

  /** The keys of the groups are distinct and are exactly the keys that occur. */
  lemma {:induction false} FirstKeysDistinct<T>(s: seq<T>, key: T -> real)
    ensures Distinct(FirstKeys(s, key))
    ensures forall k :: k in FirstKeys(s, key) <==> exists i :: 0 <= i < |s| && key(s[i]) == k
  {
    if s != [] {
      var init := s[..|s| - 1];
      FirstKeysDistinct(init, key);
      forall k | k in FirstKeys(s, key)
        ensures exists i :: 0 <= i < |s| && key(s[i]) == k
      {
        if k in FirstKeys(init, key) {
          var i :| 0 <= i < |init| && key(init[i]) == k;
          assert s[i] == init[i];
        } else {
          assert key(s[|s| - 1]) == k;
        }
      }
      forall k | exists i :: 0 <= i < |s| && key(s[i]) == k
        ensures k in FirstKeys(s, key)
      {
        var i :| 0 <= i < |s| && key(s[i]) == k;
        if i < |s| - 1 {
          assert init[i] == s[i];
        }
      }
    }
  }

  /**
   * One pass over the points filling the group map: `keys` lists the map's
   * keys in insertion order and `groups` holds each key's points.
   */
  method GroupBy<T>(s: seq<T>, key: T -> real) returns (keys: seq<real>, groups: map<real, seq<T>>)
    ensures keys == FirstKeys(s, key)
    ensures forall k :: k in groups <==> k in keys
    ensures forall k :: k in groups ==> groups[k] == Group(s, key, k)
  {
    keys := [];
    groups := map[];
    for i := 0 to |s|
      invariant keys == FirstKeys(s[..i], key)
      invariant forall k :: k in groups <==> k in keys
      invariant forall k :: k in groups ==> groups[k] == Group(s[..i], key, k)
    {
      var point := s[i];
      var amplitude := key(point);
      assert s[..i + 1][..i] == s[..i] && s[..i + 1][i] == point;
      if amplitude !in groups {
        GroupOfAbsentKey(s[..i], key, amplitude);
        groups := groups[amplitude := []];
        keys := keys + [amplitude];
      }
      groups := groups[amplitude := groups[amplitude] + [point]];
    }
    assert s[..|s|] == s;
  }

  /** A key that does not occur has an empty group. */
  lemma {:induction false} GroupOfAbsentKey<T>(s: seq<T>, key: T -> real, k: real)
    requires k !in FirstKeys(s, key)
    ensures Group(s, key, k) == []
  {
    if s != [] {
      var init := s[..|s| - 1];
      assert FirstKeys(init, key) <= FirstKeys(s, key);
      GroupOfAbsentKey(init, key, k);
    }
  }

  /** The comparator `(a, b) => a - b` on amplitudes. */
  function AmplitudeKey(a: real): Key
  {
    Key(a, 0.0)
  }

  /** `Array.from(groups.keys()).sort((a, b) => a - b)`. */
  function SortedKeys(ks: seq<real>): (r: seq<real>)
    ensures |r| == |ks|
  {
    SortBySortsAndPermutes(ks, AmplitudeKey);
    SortBy(ks, AmplitudeKey)
  }

  predicate StrictlyAscending(ks: seq<real>)
  {
    forall i, j :: 0 <= i < j < |ks| ==> ks[i] < ks[j]
  }

  /** Sorting distinct keys gives them strictly ascending, with nothing added or lost. */
  lemma SortedKeysAscending(ks: seq<real>)
    requires Distinct(ks)
    ensures StrictlyAscending(SortedKeys(ks))
    ensures forall k :: k in SortedKeys(ks) <==> k in ks
  {
    var r := SortedKeys(ks);
    SortBySortsAndPermutes(ks, AmplitudeKey);
    DistinctCount(ks);
    forall k ensures k in r <==> k in ks {
      assert k in r <==> k in multiset(r);
      assert k in ks <==> k in multiset(ks);
    }
    forall i, j | 0 <= i < j < |r|
      ensures r[i] < r[j]
    {
      assert KeyLe(AmplitudeKey(r[i]), AmplitudeKey(r[j]));
      if r[i] == r[j] {
        TwiceCounted(r, i, j);
      }
    }
  }

  /** A value occurs at most once in a sequence of distinct values. */
  lemma {:induction false} DistinctCount(ks: seq<real>)
    requires Distinct(ks)
    ensures forall x :: multiset(ks)[x] <= 1
  {
    if ks != [] {
      var init := ks[..|ks| - 1];
      DistinctCount(init);
      assert ks == init + [ks[|ks| - 1]];
      assert ks[|ks| - 1] !in init;
    }
  }
}
