/**
 * The line-collection effect shared by both serial sampling dialogs: while a
 * session is active, each received line that holds a number contributes one
 * value; the first value after arming is the settling sample and is dropped,
 * and the window stops itself when it holds `cap` values.
 */
module SampleWindow {
  import opened Wrappers
  import opened NumericToken
  import opened ArrayOps

  /** The dialog fields `measurementActive`, `measurementSamples` and `skippedFirstSample`. */
  datatype Session = Session(active: bool, samples: seq<real>, skippedFirst: bool)

  /** One run of the line effect for a new `lastLine`. */
  function OnLine(st: Session, line: string, cap: nat): (r: Session)
    requires cap > 0
    ensures !st.active ==> r == st
    ensures r.active ==> st.active
    ensures st.skippedFirst ==> r.skippedFirst
    ensures |st.samples| < cap ==> st.samples <= r.samples && |r.samples| <= |st.samples| + 1
  {
    if !st.active || line == "" then st
    else match ParseSample(line)
      case None => st
      case Some(v) =>
        if !st.skippedFirst then st.(skippedFirst := true)
        else
          var next := st.samples + [v];
          if |next| >= cap then Session(false, TakeLast(next, cap), true)
          else st.(samples := next)
  }

  /** At most `cap` samples, and fewer while the session is still collecting. */
  predicate WindowInvariant(st: Session, cap: nat)
  {
    |st.samples| <= cap && (st.active ==> |st.samples| < cap)
  }

  /** Samples are only ever appended after the settling sample was dropped. */
  predicate SettledWhenCollected(st: Session)
  {
    st.samples != [] ==> st.skippedFirst
  }

  /**
   * A line changes nothing when the session is inactive, the line is empty or
   * holds no digit; otherwise it either consumes the settling skip or appends
   * its value, and the window keeps its bound. No sample is ever cut off by
   * `slice(-cap)`, because the window is full exactly when it reaches `cap`.
   */
  lemma OnLineEffect(st: Session, line: string, cap: nat)
    requires cap > 0 && WindowInvariant(st, cap)
    ensures var r := OnLine(st, line, cap);
      && WindowInvariant(r, cap)
      && (SettledWhenCollected(st) ==> SettledWhenCollected(r))
      && (!st.active || ParseSample(line).None? ==> r == st)
      && (st.active && ParseSample(line).Some? && !st.skippedFirst ==>
            r == st.(skippedFirst := true))
      && (st.active && ParseSample(line).Some? && st.skippedFirst ==>
            r.samples == st.samples + [ParseSample(line).value]
            && r.skippedFirst
            && (r.active <==> |r.samples| < cap))
  {
    FindSomeIffDigit(line);
  }

  /** The values of the lines that hold a number, in arrival order. */
  function Values(lines: seq<string>): (vs: seq<real>)
    ensures |vs| <= |lines|
  {
    if lines == [] then []
    else match ParseSample(lines[0])
      case None => Values(lines[1..])
      case Some(v) => [v] + Values(lines[1..])
  }

  /** Feeding the lines one after another. */
  function Run(st: Session, lines: seq<string>, cap: nat): Session
    requires cap > 0
    decreases |lines|
  {
    if lines == [] then st else Run(OnLine(st, lines[0], cap), lines[1..], cap)
  }

  /** The first `n` elements, or all of them when there are fewer. */
  function Take(s: seq<real>, n: nat): (r: seq<real>)
    ensures |r| == if |s| <= n then |s| else n
    ensures r <= s
  {
    if |s| <= n then s else s[..n]
  }

  /** An inactive session ignores every line. */
  lemma {:induction false} RunInactive(st: Session, lines: seq<string>, cap: nat)
    requires cap > 0 && !st.active
    ensures Run(st, lines, cap) == st
  {
    if lines != [] {
      RunInactive(st, lines[1..], cap);
    }
  }

  /**
   * A collecting session (settling sample already dropped) appends the values
   * of the lines in order until it holds `cap` of them and then stops: it
   * ends with the first `cap` values of its samples followed by the new
   * values, and it is still active exactly when fewer than `cap` arrived.
   */
  lemma {:induction false} RunCollects(st: Session, lines: seq<string>, cap: nat)
    requires cap > 0 && st.active && st.skippedFirst && |st.samples| < cap
    ensures var r := Run(st, lines, cap);
      && r.samples == Take(st.samples + Values(lines), cap)
      && r.skippedFirst
      && (r.active <==> |st.samples| + |Values(lines)| < cap)
    decreases |lines|
  {
    if lines != [] {
      var rest := lines[1..];
      match ParseSample(lines[0])
      case None =>
        assert OnLine(st, lines[0], cap) == st;
        RunCollects(st, rest, cap);
      case Some(v) =>
        var next := st.samples + [v];
        if |next| >= cap {
          LastSampleStops(st, lines, cap);
        } else {
          ValuesOfSample(st.samples, lines);
          assert OnLine(st, lines[0], cap) == st.(samples := next);
          RunCollects(st.(samples := next), rest, cap);
        }
    }
  }

  /** The value that fills the window ends the session, and later lines change nothing. */
  lemma LastSampleStops(st: Session, lines: seq<string>, cap: nat)
    requires cap > 0 && st.active && st.skippedFirst && |st.samples| == cap - 1
    requires lines != [] && ParseSample(lines[0]).Some?
    ensures var r := Run(st, lines, cap);
      && r.samples == Take(st.samples + Values(lines), cap)
      && r.skippedFirst && !r.active
  {
    var v := ParseSample(lines[0]).value;
    var next := st.samples + [v];
    var rest := lines[1..];
    var r1 := FillingLine(st, lines[0], cap);
    RunInactive(r1, rest, cap);
    ValuesOfSample(st.samples, lines);
    TakeOfFull(next, Values(rest), cap);
  }

  /** The line that brings the window to `cap` values ends the session. */
  lemma FillingLine(st: Session, line: string, cap: nat) returns (r: Session)
    requires cap > 0 && st.active && st.skippedFirst && |st.samples| == cap - 1
    requires ParseSample(line).Some?
    ensures r == OnLine(st, line, cap)
    ensures r == Session(false, st.samples + [ParseSample(line).value], true)
  {
    var next := st.samples + [ParseSample(line).value];
    assert TakeLast(next, cap) == next;
    r := OnLine(st, line, cap);
  }

  /** A line holding a number puts its value in front of the values of the lines after it. */
  lemma ValuesOfSample(prefix: seq<real>, lines: seq<string>)
    requires lines != [] && ParseSample(lines[0]).Some?
    ensures prefix + Values(lines) == (prefix + [ParseSample(lines[0]).value]) + Values(lines[1..])
  {
    var v := ParseSample(lines[0]).value;
    assert Values(lines) == [v] + Values(lines[1..]);
  }

  /** Taking `|a|` elements of `a + b` gives back `a`. */
  lemma TakeOfFull(a: seq<real>, b: seq<real>, n: nat)
    requires |a| == n
    ensures Take(a + b, n) == a
  {
    assert (a + b)[..n] == a;
  }

  /**
   * An armed session (active, empty, settling sample pending) drops the first
   * value and then collects the following ones, up to `cap`.
   */
  lemma {:induction false} RunFromArmed(lines: seq<string>, cap: nat)
    requires cap > 0
    ensures var r := Run(Session(true, [], false), lines, cap);
      var vs := Values(lines);
      && (vs == [] ==> r == Session(true, [], false))
      && (vs != [] ==> r.samples == Take(vs[1..], cap) && r.skippedFirst
                       && (r.active <==> |vs| - 1 < cap))
  {
    var st := Session(true, [], false);
    if lines != [] {
      var rest := lines[1..];
      match ParseSample(lines[0])
      case None =>
        assert OnLine(st, lines[0], cap) == st;
        RunFromArmed(rest, cap);
      case Some(v) =>
        assert OnLine(st, lines[0], cap) == st.(skippedFirst := true);
        RunCollects(st.(skippedFirst := true), rest, cap);
        assert Values(lines)[1..] == Values(rest);
        assert [] + Values(rest) == Values(rest);
    }
  }
}
