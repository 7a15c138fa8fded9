/**
 * The two-pendulum view: it opens the 100-sample dialog for channel A (weight
 * on top) or B (weight at the bottom), stores the nine block sums the dialog
 * saves under that channel, and shows them in a nine-row table.
 */
module Pendulum2 {
  import opened Wrappers

  datatype Channel = A | B

  /** The measured sums of both channels (`Pendulum2Data`). */
  datatype Pendulum2Data = Pendulum2Data(measureA: seq<real>, measureB: seq<real>)

  /** The state updater of `handleSave`: the saved sums replace the chosen channel's list. */
  function Route(prev: Pendulum2Data, channel: Channel, sums: seq<real>): (r: Pendulum2Data)
    ensures channel == A ==> r.measureA == sums && r.measureB == prev.measureB
    ensures channel == B ==> r.measureB == sums && r.measureA == prev.measureA
  {
    if channel == A then prev.(measureA := sums) else prev.(measureB := sums)
  }

  const RowCount: nat := 9

  /** One table row: the oscillation it describes (10th to 90th) and both channels' values, `None` for "-". */
  datatype Row = Row(oscillation: nat, a: Option<real>, b: Option<real>)

  /** `measure[idx] ?? "-"`. */
  function Cell(measure: seq<real>, idx: nat): (r: Option<real>)
    ensures r.Some? <==> idx < |measure|
    ensures r.Some? ==> r.value == measure[idx]
  {
    if idx < |measure| then Some(measure[idx]) else None
  }

  /** The table: one row per description label, for the 10th, 20th, ..., 90th oscillation. */
  function Table(data: Pendulum2Data): (rows: seq<Row>)
    ensures |rows| == RowCount
    ensures forall k :: 0 <= k < RowCount ==>
      rows[k] == Row(10 * (k + 1), Cell(data.measureA, k), Cell(data.measureB, k))
  {
    seq(RowCount, k requires 0 <= k < RowCount => Row(10 * (k + 1), Cell(data.measureA, k), Cell(data.measureB, k)))
  }

  /**
   * Nine sums saved on a channel fill that channel's column completely, and
   * the other column still shows what it showed before.
   */
  lemma SavedSumsFillColumn(prev: Pendulum2Data, channel: Channel, sums: seq<real>)
    requires |sums| == RowCount
    ensures var before, after := Table(prev), Table(Route(prev, channel, sums));
      forall k :: 0 <= k < RowCount ==>
        && after[k].oscillation == 10 * (k + 1)
        && (if channel == A then after[k].a == Some(sums[k]) && after[k].b == before[k].b
            else after[k].b == Some(sums[k]) && after[k].a == before[k].a)
  {
  }

  class View {
    var dialogOpen: bool
    var measurementChannel: Channel
    var pendulum2Data: Pendulum2Data

    constructor (data: Pendulum2Data)
      ensures !dialogOpen && measurementChannel == A && pendulum2Data == data
    {
      dialogOpen := false;
      measurementChannel := A;
      pendulum2Data := data;
    }

    /** `openDialogFor(channel)`: remembers the channel and opens the dialog; the data stay. */
    method OpenDialogFor(channel: Channel)
      modifies this
      ensures measurementChannel == channel && dialogOpen
      ensures pendulum2Data == old(pendulum2Data)
    {
      measurementChannel := channel;
      dialogOpen := true;
    }

    /** The dialog's `onClose`. */
    method CloseDialog()
      modifies this
      ensures !dialogOpen
      ensures measurementChannel == old(measurementChannel) && pendulum2Data == old(pendulum2Data)
    {
      dialogOpen := false;
    }

    /** `handleSave(tenValueSums)`: stores the sums under the current channel and closes the dialog. */
    method HandleSave(tenValueSums: seq<real>)
      modifies this
      ensures pendulum2Data == Route(old(pendulum2Data), measurementChannel, tenValueSums)
      ensures measurementChannel == old(measurementChannel)
      ensures !dialogOpen
    {
      if measurementChannel == A {
        pendulum2Data := pendulum2Data.(measureA := tenValueSums);
      } else {
        pendulum2Data := pendulum2Data.(measureB := tenValueSums);
      }
      dialogOpen := false;
    }
  }
}
