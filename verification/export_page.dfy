/**
 * The printable export page: it decodes the `data` URL parameter (the
 * compressed format first, the legacy format only when that fails) and shows
 * the pendulum-2 sums as a table of running totals at every 10th oscillation.
 */
module ExportPage {
  import opened Wrappers
  import opened ArrayOps
  import Pendulum2

  datatype Pendulum1Row = Pendulum1Row(valueA: Option<real>, measureA: Option<real>, measureB: Option<real>)
  datatype Intersection = Intersection(distance: real, time: real)
  datatype Pendulum1Data = Pendulum1Data(measure: seq<Pendulum1Row>, intersection: Intersection)

  datatype ExportData = ExportData(
    pendulum1: Pendulum1Data,
    pendulum2: Pendulum2.Pendulum2Data,
    timestamp: string,
    version: string)

  // ---------------------------------------------------------------------------
  // Loading the `data` parameter
  // ---------------------------------------------------------------------------

  datatype LoadError = MissingData | DecodeFailed

  /** What the page shows after loading: the data, or an error message and no data. */
  datatype PageState = Loaded(data: ExportData) | Failed(error: LoadError)

  /**
   * The loading effect. `primary` stands for inflating and parsing the
   * base64url payload, `legacy` for `atob`, `decodeURIComponent` and parsing;
   * `None` is a thrown error. A missing or empty parameter is an error.
   */
  function Load(dataParam: Option<string>,
                primary: string -> Option<ExportData>,
                legacy: string -> Option<ExportData>): (r: PageState)
    ensures r == Failed(MissingData) <==> dataParam.None? || dataParam.value == ""
    ensures r.Loaded? ==> primary(dataParam.value) == Some(r.data) || legacy(dataParam.value) == Some(r.data)
  {
    if dataParam.None? || dataParam.value == "" then Failed(MissingData)
    else match primary(dataParam.value)
      case Some(data) => Loaded(data)
      case None =>
        match legacy(dataParam.value)
        case Some(data) => Loaded(data)
        case None => Failed(DecodeFailed)
  }

  /** The legacy decoding is consulted only when the primary one fails: otherwise it cannot change the outcome. */
  lemma LegacyOnlyAfterPrimaryFails(p: string,
                                    primary: string -> Option<ExportData>,
                                    legacy1: string -> Option<ExportData>,
                                    legacy2: string -> Option<ExportData>)
    requires p != "" && primary(p).Some?
    ensures Load(Some(p), primary, legacy1) == Load(Some(p), primary, legacy2) == Loaded(primary(p).value)
  {
  }

  /** A decoding error results exactly when both decodings fail on a present parameter. */
  lemma DecodeFailsIffBothFail(p: string,
                               primary: string -> Option<ExportData>,
                               legacy: string -> Option<ExportData>)
    requires p != ""
    ensures Load(Some(p), primary, legacy) == Failed(DecodeFailed) <==> primary(p).None? && legacy(p).None?
  {
  }

  /** `exportData && exportData.pendulum1.measure.length <= 20`: the pendulum-1 table fits one printed page. */
  predicate SinglePageOptimized(exportData: Option<ExportData>)
  {
    exportData.Some? && |exportData.value.pendulum1.measure| <= 20
  }

  /** The classes every export page carries. */
  const BaseClass: string := "min-h-screen bg-slate-50 "

  /** The print class that keeps the report on one page. */
  const SinglePageClass: string := "print:single-page"

  /**
   * The page's `className`: the base classes, followed by the single-page
   * print class exactly when data are loaded and the pendulum-1 table has at
   * most 20 rows, and by nothing otherwise.
   */
  function PageClass(exportData: Option<ExportData>): (c: string)
    ensures |BaseClass| <= |c| && c[..|BaseClass|] == BaseClass
    ensures c[|BaseClass|..] == SinglePageClass <==>
      exportData.Some? && |exportData.value.pendulum1.measure| <= 20
    ensures c[|BaseClass|..] != SinglePageClass ==> c == BaseClass
  {
    BaseClass + (if SinglePageOptimized(exportData) then SinglePageClass else "")
  }

  // ---------------------------------------------------------------------------
  // The cumulative pendulum-2 table
  // ---------------------------------------------------------------------------

  /** One row: the oscillation count and the running totals of both channels. */
  datatype CumulativeRow = CumulativeRow(oscillation: nat, t1: real, t2: real)

  /** `measure[i] ?? 0`. */
  function OrZero(s: seq<real>, i: nat): real
  {
    if i < |s| then s[i] else 0.0
  }

  /** The first `n` entries, with missing ones read as 0. */
  function Padded(s: seq<real>, n: nat): (p: seq<real>)
    ensures |p| == n && forall k :: 0 <= k < n ==> p[k] == OrZero(s, k)
  {
    seq(n, k requires 0 <= k < n => OrZero(s, k))
  }

  /** The running total after `i` entries. */
  function RunningTotal(s: seq<real>, i: nat): real
  {
    Sum(Padded(s, i))
  }

  function Max(a: nat, b: nat): nat
  {
    if a >= b then a else b
  }

  /**
   * The table body: `None` ("no measurements") when both lists are empty,
   * else max(|A|, |B|) + 1 rows where row i is labelled 10·i and holds the
   * sums of the first i entries of each channel.
   */
  method CumulativeRows(measureA: seq<real>, measureB: seq<real>) returns (rows: Option<seq<CumulativeRow>>)
    ensures rows.None? <==> measureA == [] && measureB == []
    ensures rows.Some? ==> |rows.value| == Max(|measureA|, |measureB|) + 1
    ensures rows.Some? ==> forall i :: 0 <= i < |rows.value| ==>
      rows.value[i] == CumulativeRow(10 * i, RunningTotal(measureA, i), RunningTotal(measureB, i))
  {
    if !(|measureA| > 0 || |measureB| > 0) {
      return None;
    }
    var length := Max(|measureA|, |measureB|) + 1;
    var table: seq<CumulativeRow> := [];
    for index := 0 to length
      invariant |table| == index
      invariant forall i :: 0 <= i < index ==>
        table[i] == CumulativeRow(10 * i, RunningTotal(measureA, i), RunningTotal(measureB, i))
    {
      var t1 := 0.0;
      var t2 := 0.0;
      if index > 0 {
        for i := 0 to index
          invariant t1 == RunningTotal(measureA, i) && t2 == RunningTotal(measureB, i)
        {
          RunningTotalStep(measureA, i);
          RunningTotalStep(measureB, i);
          t1 := t1 + OrZero(measureA, i);
          t2 := t2 + OrZero(measureB, i);
        }
      }
      table := table + [CumulativeRow(10 * index, t1, t2)];
    }
    return Some(table);
  }

  /** Consecutive rows differ by exactly the next entry, 0 when it is missing. */
  lemma RunningTotalStep(s: seq<real>, i: nat)
    ensures RunningTotal(s, i + 1) == RunningTotal(s, i) + OrZero(s, i)
  {
    var p := Padded(s, i + 1);
    assert p[..i] == Padded(s, i);
  }

  /** Within the list, the running total is the sum of its first i entries; row 0 is zero. */
  lemma {:induction false} RunningTotalPrefix(s: seq<real>, i: nat)
    requires i <= |s|
    ensures RunningTotal(s, i) == Sum(s[..i])
  {
    if i > 0 {
      RunningTotalPrefix(s, i - 1);
      RunningTotalStep(s, i - 1);
      SumPrefixStep(s, i - 1);
    }
  }

  /** Past the end of the list the total stays at the sum of the whole list. */
  lemma {:induction false} RunningTotalBeyond(s: seq<real>, i: nat)
    requires i >= |s|
    ensures RunningTotal(s, i) == Sum(s)
  {
    if i == |s| {
      RunningTotalPrefix(s, i);
      assert s[..i] == s;
    } else {
      RunningTotalBeyond(s, i - 1);
      RunningTotalStep(s, i - 1);
    }
  }

  /** The last row shows the totals of both whole lists, and row 0 shows zeros. */
  lemma LastRowIsTotal(measureA: seq<real>, measureB: seq<real>)
    ensures var n := Max(|measureA|, |measureB|);
      RunningTotal(measureA, n) == Sum(measureA) && RunningTotal(measureB, n) == Sum(measureB)
    ensures RunningTotal(measureA, 0) == 0.0 && RunningTotal(measureB, 0) == 0.0
  {
    var n := Max(|measureA|, |measureB|);
    RunningTotalBeyond(measureA, n);
    RunningTotalBeyond(measureB, n);
  }
}
