/**
 * The 100-sample measurement dialog of the two-pendulum view: it collects up
 * to 100 values from the serial lines, lets the user delete values (falling
 * below 90 forces a restart), and saves nine sums of ten over the last 90.
 */
module SerialDialog100 {
  import opened Wrappers
  import opened ArrayOps
  import opened SampleWindow
  import NumericToken

  const Capacity: nat := 100
  const SaveMinimum: nat := 90
  const BlockSize: nat := 10
  const BlockCount: nat := 9

  /** The dialog's four pieces of state. */
  datatype DialogState = DialogState(session: Session, mustRestart: bool)

  /** The state right after the dialog opens (`isOpen` becomes true). */
  const Reset: DialogState := DialogState(Session(false, [], false), false)

  /** `start` clears the samples, arms the settling skip, clears the restart flag and activates. */
  function StartStep(st: DialogState): (r: DialogState)
    ensures r.session == Session(true, [], false) && !r.mustRestart
  {
    DialogState(Session(true, [], false), false)
  }

  /** `stop` clears only the active flag. */
  function StopStep(st: DialogState): (r: DialogState)
    ensures !r.session.active
    ensures r.session.samples == st.session.samples && r.session.skippedFirst == st.session.skippedFirst
    ensures r.mustRestart == st.mustRestart
  {
    st.(session := st.session.(active := false))
  }

  function LineStep(st: DialogState, line: string): DialogState
  {
    st.(session := OnLine(st.session, line, Capacity))
  }

  /** `removeSample(index)`: drops position `index`; fewer than 90 left forces a restart. */
  function RemoveStep(st: DialogState, index: int): (r: DialogState)
    ensures r.session.samples == RemoveAt(st.session.samples, index)
    ensures r.mustRestart <==> st.mustRestart || |r.session.samples| < SaveMinimum
    ensures r.session.active == st.session.active && r.session.skippedFirst == st.session.skippedFirst
  {
    var next := RemoveAt(st.session.samples, index);
    DialogState(st.session.(samples := next), st.mustRestart || |next| < SaveMinimum)
  }

  /** `canSave`: enough samples and no pending restart. */
  predicate CanSave(st: DialogState)
  {
    |st.session.samples| >= SaveMinimum && !st.mustRestart
  }

  /** The nine sums of ten consecutive values of a block of 90. */
  function BlockSums(last: seq<real>): (sums: seq<real>)
    requires |last| == SaveMinimum
    ensures |sums| == BlockCount
  {
    seq(BlockCount, k requires 0 <= k < BlockCount => BlockSum(last, k))
  }

  /** The sum of the `k`-th run of ten values. */
  function BlockSum(last: seq<real>, k: nat): real
    requires BlockSize * k + BlockSize <= |last|
  {
    Sum(last[BlockSize * k..BlockSize * k + BlockSize])
  }

  /**
   * The loop of `handleSave`: for each start `i` of a block of ten it sums
   * `lastNinety.slice(i, i + 10)`; the sums are the block sums, and together
   * they add up to the 90 values.
   */
  method SumBlocks(lastNinety: seq<real>) returns (sums: seq<real>)
    requires |lastNinety| == SaveMinimum
    ensures sums == BlockSums(lastNinety)
    ensures Sum(sums) == Sum(lastNinety)
  {
    sums := [];
    var i := 0;
    while i < SaveMinimum
      invariant 0 <= i <= SaveMinimum && i == BlockSize * |sums|
      invariant forall k :: 0 <= k < |sums| ==> sums[k] == BlockSum(lastNinety, k)
      invariant Sum(sums) == Sum(lastNinety[..i])
    {
      var s := Sum(lastNinety[i..i + BlockSize]);
      SumPrefixSplit(lastNinety, i, i + BlockSize);
      SumAppend(sums, s);
      sums := sums + [s];
      i := i + BlockSize;
    }
    assert lastNinety[..SaveMinimum] == lastNinety;
  }

  /** What the dialog's user can do, and the serial lines that arrive. */
  datatype Event = Open | Start | Stop | Line(line: string) | Remove(index: int)

  function Step(st: DialogState, e: Event): DialogState
  {
    match e
    case Open => Reset
    case Start => StartStep(st)
    case Stop => StopStep(st)
    case Line(line) => LineStep(st, line)
    case Remove(index) => RemoveStep(st, index)
  }

  function RunEvents(st: DialogState, es: seq<Event>): DialogState
    decreases |es|
  {
    if es == [] then st else RunEvents(Step(st, es[0]), es[1..])
  }

  /** The state every reachable dialog keeps. */
  predicate Consistent(st: DialogState)
  {
    WindowInvariant(st.session, Capacity) && SettledWhenCollected(st.session)
  }

  /** Every event keeps the dialog consistent: never more than 100 samples, fewer while collecting. */
  lemma StepKeepsConsistent(st: DialogState, e: Event)
    requires Consistent(st)
    ensures Consistent(Step(st, e))
  {
    if e.Line? {
      OnLineEffect(st.session, e.line, Capacity);
    }
  }

  /**
   * Once a deletion has forced a restart, only `start` or reopening the dialog
   * clears the flag, and saving stays impossible until then.
   */
  lemma {:induction false} MustRestartPersists(st: DialogState, es: seq<Event>)
    requires st.mustRestart
    requires forall k :: 0 <= k < |es| ==> !es[k].Open? && !es[k].Start?
    ensures RunEvents(st, es).mustRestart
    ensures !CanSave(RunEvents(st, es))
    decreases |es|
  {
    if es != [] {
      MustRestartPersists(Step(st, es[0]), es[1..]);
    }
  }

  /**
   * From `start`, a stream of lines holding more than 100 numeric values fills the window with the 2nd to 101st value and stops it,
   * after which saving is possible. The lines here are those after `start`;
   * the effect's re-run on the line before it is `StaleLineAtStart`.
   */
  lemma FullRunAfterStart(st: DialogState, lines: seq<string>)
    requires |Values(lines)| > Capacity
    ensures var r := RunEvents(StartStep(st), LinesToEvents(lines));
      && r.session.samples == Values(lines)[1..Capacity + 1]
      && !r.session.active
      && CanSave(r)
  {
    var armed := StartStep(st);
    LinesRunAsSession(armed, lines);
    RunFromArmed(lines, Capacity);
  }

  /**
   * `start` re-arms the skip and sets `measurementActive`, on which the line
   * effect also depends, so the effect runs once more on the line received
   * before `start`. A number in that stale line is dropped as the settling
   * value, and the window keeps the 1st to 100th value that arrives afterwards.
   */
  lemma StaleLineAtStart(st: DialogState, last: string, lines: seq<string>)
    requires NumericToken.ParseSample(last).Some? && |Values(lines)| >= Capacity
    ensures var r := RunEvents(StartStep(st), LinesToEvents([last] + lines));
      && r.session.samples == Values(lines)[..Capacity]
      && !r.session.active
      && CanSave(r)
  {
    ValuesOfSample([], [last] + lines);
    assert ([last] + lines)[1..] == lines;
    FullRunAfterStart(st, [last] + lines);
    AfterFirst(NumericToken.ParseSample(last).value, Values(lines), Capacity);
  }

  /** The `n` entries after the first of `[v] + vs` are the first `n` of `vs`. */
  lemma AfterFirst(v: real, vs: seq<real>, n: nat)
    requires n <= |vs|
    ensures ([v] + vs)[1..n + 1] == vs[..n]
  {
  }

  function LinesToEvents(lines: seq<string>): (es: seq<Event>)
    ensures |es| == |lines|
    ensures forall k :: 0 <= k < |lines| ==> es[k] == Line(lines[k])
  {
    seq(|lines|, k requires 0 <= k < |lines| => Line(lines[k]))
  }

  /** Line events act on the session exactly as the line effect does, and leave the restart flag alone. */
  lemma {:induction false} LinesRunAsSession(st: DialogState, lines: seq<string>)
    ensures RunEvents(st, LinesToEvents(lines)) == DialogState(Run(st.session, lines, Capacity), st.mustRestart)
    decreases |lines|
  {
    if lines != [] {
      LinesRunAsSession(LineStep(st, lines[0]), lines[1..]);
      assert LinesToEvents(lines)[1..] == LinesToEvents(lines[1..]);
    }
  }

  // ---------------------------------------------------------------------------
  // The dialog object
  // ---------------------------------------------------------------------------

  class Dialog {
    var measurementActive: bool
    var measurementSamples: seq<real>
    var skippedFirstSample: bool
    var mustRestart: bool

    function State(): DialogState
      reads this
    {
      DialogState(Session(measurementActive, measurementSamples, skippedFirstSample), mustRestart)
    }

    ghost predicate Valid()
      reads this
    {
      Consistent(State())
    }

    constructor ()
      ensures Valid() && State() == Reset
    {
      measurementActive := false;
      measurementSamples := [];
      skippedFirstSample := false;
      mustRestart := false;
    }

    /** The reset effect when the dialog is opened. */
    method Open()
      modifies this
      ensures Valid() && State() == Reset
    {
      measurementActive := false;
      measurementSamples := [];
      skippedFirstSample := false;
      mustRestart := false;
    }

    method Start()
      modifies this
      requires Valid()
      ensures Valid() && State() == StartStep(old(State()))
    {
      measurementSamples := [];
      measurementActive := true;
      skippedFirstSample := false;
      mustRestart := false;
    }

    method Stop()
      modifies this
      requires Valid()
      ensures Valid() && State() == StopStep(old(State()))
    {
      measurementActive := false;
    }

    /** The line-collection effect for a new `lastLine`. */
    method OnLine(line: string)
      modifies this
      requires Valid()
      ensures Valid() && State() == LineStep(old(State()), line)
    {
      OnLineEffect(State().session, line, Capacity);
      if !measurementActive || line == "" {
        return;
      }
      match NumericToken.ParseSample(line)
      case None =>
      case Some(v) =>
        if !skippedFirstSample {
          skippedFirstSample := true;
          return;
        }
        var next := measurementSamples + [v];
        if |next| >= Capacity {
          measurementActive := false;
          measurementSamples := TakeLast(next, Capacity);
        } else {
          measurementSamples := next;
        }
    }

    method RemoveSample(index: int)
      modifies this
      requires Valid()
      ensures Valid() && State() == RemoveStep(old(State()), index)
    {
      var next := RemoveAt(measurementSamples, index);
      if |next| < SaveMinimum {
        mustRestart := true;
      }
      measurementSamples := next;
    }

    predicate CanSaveNow()
      reads this
      ensures CanSaveNow() <==> CanSave(State())
    {
      |measurementSamples| >= SaveMinimum && !mustRestart
    }

    /**
     * `handleSave`: nothing when saving is not possible; otherwise the nine
     * block sums of the last 90 samples, which together add up to those 90.
     */
    method HandleSave() returns (saved: Option<seq<real>>)
      ensures saved.Some? <==> CanSave(State())
      ensures saved.Some? ==>
        var last := TakeLast(measurementSamples, SaveMinimum);
        && saved.value == BlockSums(last)
        && Sum(saved.value) == Sum(last)
    {
      if |measurementSamples| < SaveMinimum {
        return None;
      }
      if mustRestart {
        return None;
      }
      var lastNinety := TakeLast(measurementSamples, SaveMinimum);
      var sums := SumBlocks(lastNinety);
      return Some(sums);
    }
  }
}
