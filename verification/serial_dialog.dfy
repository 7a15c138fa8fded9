/**
 * The 20-sample measurement dialog of the one-pendulum view: it collects up
 * to 20 values from the serial lines and saves their mean. Unlike the
 * 100-sample dialog, `start` does not re-arm the settling skip and deleting
 * values never forces a restart.
 */
module SerialDialog {
  import opened Wrappers
  import opened ArrayOps
  import opened SampleWindow
  import NumericToken

  const Capacity: nat := 20
  const SaveMinimum: nat := 5

  /** The state right after the dialog opens. */
  const Reset: Session := Session(false, [], false)

  /** `start` clears the samples and activates; the settling flag is left as it is. */
  function StartStep(st: Session): (r: Session)
    ensures r.active && r.samples == [] && r.skippedFirst == st.skippedFirst
  {
    Session(true, [], st.skippedFirst)
  }

  function StopStep(st: Session): (r: Session)
    ensures !r.active && r.samples == st.samples && r.skippedFirst == st.skippedFirst
  {
    st.(active := false)
  }

  function RemoveStep(st: Session, index: int): (r: Session)
    ensures r.samples == RemoveAt(st.samples, index)
    ensures r.active == st.active && r.skippedFirst == st.skippedFirst
  {
    st.(samples := RemoveAt(st.samples, index))
  }

  /** The arithmetic mean `s.reduce((s, v) => s + v, 0) / s.length`. */
  function Mean(s: seq<real>): (m: real)
    requires |s| > 0
    ensures m * |s| as real == Sum(s)
  {
    Sum(s) / |s| as real
  }

  /** The mean lies between the smallest and the largest sample, and n times the mean is the total. */
  lemma MeanBounds(s: seq<real>, lo: real, hi: real)
    requires |s| > 0
    requires forall i :: 0 <= i < |s| ==> lo <= s[i] <= hi
    ensures lo <= Mean(s) <= hi
    ensures Mean(s) * |s| as real == Sum(s)
  {
    SumBounds(s, lo, hi);
    QuotientBounds(Sum(s), |s| as real, lo, hi);
  }

  /** Dividing by a positive `n` a total between `n * lo` and `n * hi` gives a value between `lo` and `hi`. */
  lemma QuotientBounds(total: real, n: real, lo: real, hi: real)
    requires n > 0.0 && n * lo <= total <= n * hi
    ensures lo <= total / n <= hi && (total / n) * n == total
  {
    var m := total / n;
    assert n * (m - lo) == total - n * lo;
    assert n * (hi - m) == n * hi - total;
  }

  /** The mean of equal samples is that sample. */
  lemma MeanOfConstant(s: seq<real>, v: real)
    requires |s| > 0 && forall i :: 0 <= i < |s| ==> s[i] == v
    ensures Mean(s) == v
  {
    MeanBounds(s, v, v);
  }

  /** The average shown under the samples: "-" (`None`) for no samples, else the mean. */
  function DisplayedAverage(s: seq<real>): (r: Option<real>)
    ensures r.None? <==> s == []
    ensures r.Some? ==> r.value * |s| as real == Sum(s)
  {
    if |s| > 0 then Some(Mean(s)) else None
  }

  // ---------------------------------------------------------------------------
  // The dialog object
  // ---------------------------------------------------------------------------

  class Dialog {
    var measurementActive: bool
    var measurementSamples: seq<real>
    var skippedFirstSample: bool

    function State(): Session
      reads this
    {
      Session(measurementActive, measurementSamples, skippedFirstSample)
    }

    ghost predicate Valid()
      reads this
    {
      WindowInvariant(State(), Capacity) && SettledWhenCollected(State())
    }

    constructor ()
      ensures Valid() && State() == Reset
    {
      measurementActive := false;
      measurementSamples := [];
      skippedFirstSample := false;
    }

    /** The reset effect when the dialog is opened. */
    method Open()
      modifies this
      ensures Valid() && State() == Reset
    {
      measurementActive := false;
      measurementSamples := [];
      skippedFirstSample := false;
    }

    method Start()
      modifies this
      requires Valid()
      ensures Valid() && State() == StartStep(old(State()))
    {
      measurementSamples := [];
      measurementActive := true;
    }

    method Stop()
      modifies this
      requires Valid()
      ensures Valid() && State() == StopStep(old(State()))
    {
      measurementActive := false;
    }

    /** The line-collection effect for a new `lastLine`. */
    method OnLine(line: string)
      modifies this
      requires Valid()
      ensures Valid() && State() == SampleWindow.OnLine(old(State()), line, Capacity)
    {
      OnLineEffect(State(), line, Capacity);
      if !measurementActive || line == "" {
        return;
      }
      match NumericToken.ParseSample(line)
      case None =>
      case Some(v) =>
        if !skippedFirstSample {
          skippedFirstSample := true;
          return;
        }
        var next := measurementSamples + [v];
        if |next| >= Capacity {
          measurementActive := false;
          measurementSamples := TakeLast(next, Capacity);
        } else {
          measurementSamples := next;
        }
    }

    method RemoveSample(index: int)
      modifies this
      requires Valid()
      ensures Valid() && State() == RemoveStep(old(State()), index)
    {
      measurementSamples := RemoveAt(measurementSamples, index);
    }

    /** `handleSave`: nothing with fewer than five samples, else the mean of all of them. */
    method HandleSave() returns (saved: Option<real>)
      ensures saved.None? <==> |measurementSamples| < SaveMinimum
      ensures saved.Some? ==> saved.value * |measurementSamples| as real == Sum(measurementSamples)
    {
      if |measurementSamples| < SaveMinimum {
        return None;
      }
      var avg := Sum(measurementSamples) / |measurementSamples| as real;
      return Some(avg);
    }
  }

  /**
   * Only the first value after opening is dropped: once it has been, a later
   * `start` keeps every value, so the samples are the first 20 values that
   * arrive after it. The lines here are those after `start`; the effect's
   * re-run on the line before it is `RestartRecordsStaleLine`.
   */
  lemma RestartSkipsNothing(st: Session, lines: seq<string>)
    requires st.skippedFirst
    ensures Run(StartStep(st), lines, Capacity).samples == Take(Values(lines), Capacity)
  {
    RunCollects(StartStep(st), lines, Capacity);
    assert [] + Values(lines) == Values(lines);
  }

  /**
   * After opening, `start` drops the first value and keeps the next 20. The
   * lines here are those after `start`; the effect's re-run on the line
   * before it is `FirstStartSkipsStaleLine`.
   */
  lemma FirstStartSkipsOne(lines: seq<string>)
    requires |Values(lines)| >= 1
    ensures Run(StartStep(Reset), lines, Capacity).samples == Take(Values(lines)[1..], Capacity)
  {
    RunFromArmed(lines, Capacity);
  }

  /**
   * The line effect also depends on `measurementActive`, so `start` makes it
   * run once more on the line received before it. Once the settling value was
   * dropped, a number in that stale line becomes the first of the 20 samples.
   */
  lemma RestartRecordsStaleLine(st: Session, last: string, lines: seq<string>)
    requires st.skippedFirst && NumericToken.ParseSample(last).Some?
    ensures Run(StartStep(st), [last] + lines, Capacity).samples ==
      Take([NumericToken.ParseSample(last).value] + Values(lines), Capacity)
  {
    RestartSkipsNothing(st, [last] + lines);
    ValuesOfSample([], [last] + lines);
    assert ([last] + lines)[1..] == lines;
  }

  /**
   * On the first `start` after opening, a number in the stale line re-read by
   * the line effect is the one dropped as the settling value, and the first
   * value that arrives afterwards is kept.
   */
  lemma FirstStartSkipsStaleLine(last: string, lines: seq<string>)
    requires NumericToken.ParseSample(last).Some?
    ensures Run(StartStep(Reset), [last] + lines, Capacity).samples == Take(Values(lines), Capacity)
  {
    FirstStartSkipsOne([last] + lines);
    ValuesOfSample([], [last] + lines);
    assert ([last] + lines)[1..] == lines;
  }
}
