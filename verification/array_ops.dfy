/**
 * Pure counterparts of the JavaScript array and string built-ins that the
 * modelled components use: `reduce` with `+`, `filter` by index, `slice(-n)`,
 * `join`, `split` on one character and the (stable) `sort` with a numeric
 * comparator.
 */
module ArrayOps {

  // ---------------------------------------------------------------------------
  // reduce((acc, v) => acc + v, 0)
  // ---------------------------------------------------------------------------

  /** The left fold `s.reduce((acc, v) => acc + v, 0)`. */
  function Sum(s: seq<real>): real
  {
    if s == [] then 0.0 else Sum(s[..|s| - 1]) + s[|s| - 1]
  }

  /** Summing a concatenation sums the parts. */
  lemma {:induction false} SumConcat(a: seq<real>, b: seq<real>)
    ensures Sum(a + b) == Sum(a) + Sum(b)
  {
    if b == [] {
      assert a + b == a;
    } else {
      assert (a + b)[..|a + b| - 1] == a + b[..|b| - 1];
      SumConcat(a, b[..|b| - 1]);
    }
  }

  /** Adding one more element of a prefix adds that element. */
  lemma SumPrefixStep(s: seq<real>, i: nat)
    requires i < |s|
    ensures Sum(s[..i + 1]) == Sum(s[..i]) + s[i]
  {
    assert s[..i + 1][..i] == s[..i];
  }

  /** Appending one element adds it to the sum. */
  lemma SumAppend(s: seq<real>, x: real)
    ensures Sum(s + [x]) == Sum(s) + x
  {
    assert (s + [x])[..|s|] == s;
  }

  /** The sum of a longer prefix is the sum of a shorter one plus the slice between them. */
  lemma SumPrefixSplit(s: seq<real>, i: nat, j: nat)
    requires i <= j <= |s|
    ensures Sum(s[..j]) == Sum(s[..i]) + Sum(s[i..j])
  {
    assert s[..j] == s[..i] + s[i..j];
    SumConcat(s[..i], s[i..j]);
  }

  /** A value at two positions is counted at least twice. */
  lemma TwiceCounted<T>(s: seq<T>, i: nat, j: nat)
    requires i < j < |s| && s[i] == s[j]
    ensures multiset(s)[s[i]] >= 2
  {
    assert s == s[..j] + [s[j]] + s[j + 1..];
    assert s[i] in s[..j];
  }

  /** Elementwise bounds bound the sum: |s| * lo <= Sum(s) <= |s| * hi. */
  lemma {:induction false} SumBounds(s: seq<real>, lo: real, hi: real)
    requires forall i :: 0 <= i < |s| ==> lo <= s[i] <= hi
    ensures |s| as real * lo <= Sum(s) <= |s| as real * hi
  {
    if s != [] {
      SumBounds(s[..|s| - 1], lo, hi);
    }
  }

  // ---------------------------------------------------------------------------
  // filter((_, i) => i !== index)
  // ---------------------------------------------------------------------------

  /**
   * `s.filter((_, i) => i !== index)`: drops position `index` and keeps every
   * other element in order; an index outside the array drops nothing.
   */
  function RemoveAt<T>(s: seq<T>, index: int): (r: seq<T>)
    ensures 0 <= index < |s| ==> r == s[..index] + s[index + 1..]
    ensures !(0 <= index < |s|) ==> r == s
  {
    if s == [] then []
    else (if index == 0 then [] else [s[0]]) + RemoveAt(s[1..], index - 1)
  }

  // ---------------------------------------------------------------------------
  // slice(-n)
  // ---------------------------------------------------------------------------

  /** `s.slice(-n)` for a positive `n`: the last `n` elements, or all when fewer. */
  function TakeLast<T>(s: seq<T>, n: nat): (r: seq<T>)
    requires n > 0
    ensures |r| == if |s| <= n then |s| else n
    ensures s == s[..|s| - |r|] + r
  {
    if |s| <= n then s else s[|s| - n..]
  }

  // ---------------------------------------------------------------------------
  // join(sep) and split(sep)
  // ---------------------------------------------------------------------------

  /** `xs.join(sep)`. */
  function Join(xs: seq<string>, sep: string): string
  {
    if xs == [] then ""
    else if |xs| == 1 then xs[0]
    else xs[0] + sep + Join(xs[1..], sep)
  }

  /** `s.split(sep)` for a one-character separator: the pieces between separators. */
  function Split(s: string, sep: char): (pieces: seq<string>)
    ensures |pieces| >= 1
  {
    if s == [] then [""]
    else if s[0] == sep then [""] + Split(s[1..], sep)
    else var p := Split(s[1..], sep); [[s[0]] + p[0]] + p[1..]
  }

  predicate Lacks(s: string, c: char)
  {
    forall i :: 0 <= i < |s| ==> s[i] != c
  }

  /** A string without the separator splits into itself. */
  lemma {:induction false} SplitWithout(s: string, sep: char)
    requires Lacks(s, sep)
    ensures Split(s, sep) == [s]
  {
    if s != [] {
      SplitWithout(s[1..], sep);
      assert [s[0]] + s[1..] == s;
    }
  }

  /** Splitting `x + [sep] + rest` where `x` lacks the separator yields `x` first. */
  lemma {:induction false} SplitAfter(x: string, rest: string, sep: char)
    requires Lacks(x, sep)
    ensures Split(x + [sep] + rest, sep) == [x] + Split(rest, sep)
  {
    if x == [] {
      assert x + [sep] + rest == [sep] + rest;
      assert ([sep] + rest)[1..] == rest;
    } else {
      var s := x + [sep] + rest;
      assert s[0] == x[0] && s[1..] == x[1..] + [sep] + rest;
      SplitAfter(x[1..], rest, sep);
      assert [x[0]] + x[1..] == x;
    }
  }

  /** `split` undoes `join` when no piece contains the separator. */
  lemma {:induction false} SplitJoin(xs: seq<string>, sep: char)
    requires |xs| > 0
    requires forall k :: 0 <= k < |xs| ==> Lacks(xs[k], sep)
    ensures Split(Join(xs, [sep]), sep) == xs
  {
    if |xs| == 1 {
      SplitWithout(xs[0], sep);
    } else {
      SplitJoin(xs[1..], sep);
      SplitAfter(xs[0], Join(xs[1..], [sep]), sep);
      assert [xs[0]] + xs[1..] == xs;
    }
  }

  // ---------------------------------------------------------------------------
  // sort((a, b) => a.k - b.k || a.l - b.l)
  // ---------------------------------------------------------------------------

  /**
   * A sort key compared lexicographically. A comparator on one number
   * (`a.k - b.k`) uses 0 as the second component.
   */
  datatype Key = Key(major: real, minor: real)

  predicate KeyLe(a: Key, b: Key)
  {
    a.major < b.major || (a.major == b.major && a.minor <= b.minor)
  }

  predicate SortedBy<T>(s: seq<T>, key: T -> Key)
  {
    forall i, j :: 0 <= i < j < |s| ==> KeyLe(key(s[i]), key(s[j]))
  }

  /** Places `x` after the trailing elements whose keys are not greater than its own. */
  function InsertBy<T>(s: seq<T>, x: T, key: T -> Key): seq<T>
  {
    if s == [] || KeyLe(key(s[|s| - 1]), key(x)) then s + [x]
    else InsertBy(s[..|s| - 1], x, key) + [s[|s| - 1]]
  }

  /**
   * `[...s].sort(cmp)`. ECMAScript requires `sort` to be stable, and a stable
   * sort has exactly one result; insertion sort is one.
   */
  function SortBy<T>(s: seq<T>, key: T -> Key): seq<T>
  {
    if s == [] then [] else InsertBy(SortBy(s[..|s| - 1], key), s[|s| - 1], key)
  }

  /** Where `InsertBy` puts the new element. */
  lemma {:induction false} InsertByPlacement<T>(s: seq<T>, x: T, key: T -> Key) returns (k: nat)
    ensures k <= |s| && InsertBy(s, x, key) == s[..k] + [x] + s[k..]
    ensures forall i :: k <= i < |s| ==> !KeyLe(key(s[i]), key(x))
    ensures k > 0 ==> KeyLe(key(s[k - 1]), key(x))
  {
    if s == [] || KeyLe(key(s[|s| - 1]), key(x)) {
      k := |s|;
      assert s[..k] == s && s[k..] == [];
    } else {
      var init := s[..|s| - 1];
      k := InsertByPlacement(init, x, key);
      assert init[..k] == s[..k];
      assert init[k..] + [s[|s| - 1]] == s[k..];
    }
  }

  /** Splicing `x` between the elements not greater than it and the greater ones keeps a sequence sorted. */
  lemma SortedSplice<T>(s: seq<T>, k: nat, x: T, key: T -> Key)
    requires SortedBy(s, key) && k <= |s|
    requires forall i :: k <= i < |s| ==> !KeyLe(key(s[i]), key(x))
    requires k > 0 ==> KeyLe(key(s[k - 1]), key(x))
    ensures SortedBy(s[..k] + [x] + s[k..], key)
  {
    var r := s[..k] + [x] + s[k..];
    forall i, j | 0 <= i < j < |r|
      ensures KeyLe(key(r[i]), key(r[j]))
    {
      if j < k {
        assert r[i] == s[i] && r[j] == s[j];
      } else if j == k {
        assert r[i] == s[i] && r[j] == x;
        assert KeyLe(key(s[i]), key(s[k - 1]));
      } else if i < k {
        assert r[i] == s[i] && r[j] == s[j - 1];
      } else if i == k {
        assert r[i] == x && r[j] == s[j - 1];
        assert !KeyLe(key(s[j - 1]), key(x));
      } else {
        assert r[i] == s[i - 1] && r[j] == s[j - 1];
      }
    }
  }

  /** Inserting into a sorted sequence keeps it sorted and adds exactly `x`. */
  lemma InsertBySorted<T>(s: seq<T>, x: T, key: T -> Key)
    requires SortedBy(s, key)
    ensures SortedBy(InsertBy(s, x, key), key)
    ensures multiset(InsertBy(s, x, key)) == multiset(s) + multiset{x}
  {
    var k := InsertByPlacement(s, x, key);
    SortedSplice(s, k, x, key);
    SpliceMultiset(s, k, x);
  }

  lemma SpliceMultiset<T>(s: seq<T>, k: nat, x: T)
    requires k <= |s|
    ensures multiset(s[..k] + [x] + s[k..]) == multiset(s) + multiset{x}
  {
    assert s == s[..k] + s[k..];
  }

  /** `SortBy` sorts, and its result is a permutation of its input. */
  lemma {:induction false} SortBySortsAndPermutes<T>(s: seq<T>, key: T -> Key)
    ensures SortedBy(SortBy(s, key), key)
    ensures multiset(SortBy(s, key)) == multiset(s)
    ensures |SortBy(s, key)| == |s|
  {
    if s != [] {
      var init := s[..|s| - 1];
      SortBySortsAndPermutes(init, key);
      InsertBySorted(SortBy(init, key), s[|s| - 1], key);
      assert s == init + [s[|s| - 1]];
    }
    assert |multiset(SortBy(s, key))| == |SortBy(s, key)|;
  }

  /** Sorting an already sorted sequence changes nothing. */
  lemma {:induction false} SortByOfSorted<T>(s: seq<T>, key: T -> Key)
    requires SortedBy(s, key)
    ensures SortBy(s, key) == s
  {
    if s != [] {
      var init := s[..|s| - 1];
      assert SortedBy(init, key);
      SortByOfSorted(init, key);
      assert init + [s[|s| - 1]] == s;
    }
  }

  /**
   * Sorting a sorted sequence with one element appended inserts that element
   * after every element whose key is not greater than its own.
   */
  lemma SortAppendedIsInsert<T>(s: seq<T>, x: T, key: T -> Key) returns (k: nat)
    requires SortedBy(s, key)
    ensures k <= |s| && SortBy(s + [x], key) == s[..k] + [x] + s[k..]
    ensures forall i :: 0 <= i < k ==> KeyLe(key(s[i]), key(x))
    ensures forall i :: k <= i < |s| ==> !KeyLe(key(s[i]), key(x))
  {
    SortByOfSorted(s, key);
    assert (s + [x])[..|s|] == s;
    k := InsertByPlacement(s, x, key);
    forall i | 0 <= i < k
      ensures KeyLe(key(s[i]), key(x))
    {
      assert KeyLe(key(s[i]), key(s[k - 1]));
    }
  }
}
