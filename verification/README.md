# Pendulum and LED-generator measurement front ends, modelled in Dafny

Two browser applications talk to laboratory devices over a serial line.

* **gravity** measures the periods of a reversible pendulum. A line framer
  splits the serial byte stream into lines. Two sampling dialogs collect the
  numbers in those lines: one takes 20 samples and saves their mean; the other
  takes 100 samples and saves nine block sums of ten over the last 90. The
  two-pendulum view stores those sums per channel. A printable export page
  decodes its `data` parameter and tabulates running totals. A base64url codec
  packs export payloads into URLs.
* **lapogen** drives an LED current generator and records the detector
  voltage in four measurements:
  - the volt-ampere characteristic;
  - the angle characteristic;
  - the frequency characteristic;
  - the lux-ampere characteristic.

  Each view validates its inputs and computes the generator parameters. It
  keeps its list sorted and deletes by index. Three charts present the data:
  - an x-y line chart with automatic axis ranges;
  - a 180-slot polar chart, with one dataset per amplitude;
  - a half-doughnut gauge of the arm angle.

  An export dialog serializes everything into a compact tuple form behind a
  share URL, writes one list as CSV, and counts the points.

The model has one module per source file, plus a few shared modules:

* `ArrayOps` holds the JavaScript array built-ins the code relies on:
  - `reduce` sums;
  - `filter` by index;
  - `slice(-n)`;
  - `join` and `split`;
  - the stable `sort` with a comparator.
* `NumericToken` holds the regular expression `/[+-]?\d+(?:\.\d+)?/` with `parseFloat`.
* `SampleWindow` holds the line-collection effect both dialogs share.
* `AmplitudeGroups` holds the `Map` grouping that both lapogen charts use.
* `GeneratorParams` holds the parameter triple passed to the device.

State that the code updates in place is modelled as classes:
- the framer's buffer;
- the dialogs' React state;
- the pendulum view;
- the axis configurations.

The polar chart's 180-slot array is a fresh `array` that the method
`PolarChart.FillSlots` fills in place.

The methods of these classes are proved against pure step functions, and the
properties are proved about those functions. Numbers are mathematical reals.
`NaN` is modelled as `None`.

## Model

| member | source | states |
|---|---|---|
| LineBreakTransformer.Split | gravity/src/lib/LineBreakTransformer.ts:6 | splitting at CRLF, lone CR or lone LF always yields at least one piece |
| LineBreakTransformer.Transformer.constructor | gravity/src/lib/LineBreakTransformer.ts:2 | the buffer starts empty |
| LineBreakTransformer.Controller.Enqueue | gravity/src/lib/LineBreakTransformer.ts:8 | the line is appended to the queue, which is otherwise unchanged |
| LineBreakTransformer.Transformer.Transform | gravity/src/lib/LineBreakTransformer.ts:4-9 | enqueues every complete piece of buffer+chunk in order and keeps the last piece as the buffer, which holds no terminator |
| LineBreakTransformer.Transformer.Flush | gravity/src/lib/LineBreakTransformer.ts:11-13 | enqueues the buffer exactly when it is not empty |
| LineBreakTransformer.LastPieceHasNoBreak | gravity/src/lib/LineBreakTransformer.ts:7 | the piece kept back by `pop` never holds a terminator |
| LineBreakTransformer.SplitConcat | gravity/src/lib/LineBreakTransformer.ts:6 | splitting joined texts glues the two splits at the seam when no CRLF straddles it |
| LineBreakTransformer.SplitPiecesHaveNoBreak | gravity/src/lib/LineBreakTransformer.ts:6 | no piece holds a CR or LF |
| LineBreakTransformer.SplitRejoin | gravity/src/lib/LineBreakTransformer.ts:6 | the pieces and the matched terminators rebuild the text; one more piece than terminators |
| LineBreakTransformer.FeedFramesLines | gravity/src/lib/LineBreakTransformer.ts:4-9 | after a transform: no terminator in the buffer or in any line; lines, terminators and buffer rebuild old buffer + chunk; one line per terminator |
| LineBreakTransformer.FeedWithoutBreak | gravity/src/lib/LineBreakTransformer.ts:4-9 | a chunk without terminators enqueues nothing and only grows the buffer |
| LineBreakTransformer.FeedTwiceIsFeedOnce | gravity/src/lib/LineBreakTransformer.ts:4-9 | two transforms equal one on the joined chunks when no CRLF straddles the seam |
| LineBreakTransformer.StraddlingCrLfAddsEmptyLine | gravity/src/lib/LineBreakTransformer.ts:4-9 | "a\r" then "\nb" enqueues an extra empty line that "a\r\nb" in one chunk does not |
| NumericToken.Find | gravity/src/components/SerialDialog100.tsx:53 | the match's sign, integer digits and fraction positions are ordered within the line |
| NumericToken.FindSomeIffDigit | gravity/src/components/SerialDialog100.tsx:53-54 | a line matches exactly when it holds a digit |
| NumericToken.FindShape | gravity/src/components/SerialDialog100.tsx:53 | leftmost match; optional sign right before the digits; maximal digit runs; a fraction exactly when '.' and a digit follow |
| NumericToken.SignOnlyBeforeFirstDigit | gravity/src/components/SerialDialog100.tsx:53 | the match starts at the first digit, or one before it when a sign stands there |
| NumericToken.ParseSample | gravity/src/components/SerialDialog100.tsx:53-55 | a value is read exactly when the line holds a digit |
| NumericToken.NatToDecimalValue | lapogen/src/components/PolarChart.tsx:63 | the decimal text of n reads back as n |
| NumericToken.ParseAfterPrefix | gravity/src/components/SerialDialog100.tsx:53-55 | a number after at most one non-digit symbol parses to itself, negated after '-' |
| NumericToken.FindAfterPrefix | gravity/src/components/SerialDialog100.tsx:53 | after a short non-digit prefix the match is the whole digit run, signed by a sign right before it |
| NumericToken.IntegerTokenValue | gravity/src/components/SerialDialog100.tsx:55 | a match without fraction reads as its digits, negated after '-' |
| SampleWindow.OnLineEffect | gravity/src/components/SerialDialog100.tsx:51-70 | inactive session or no number: no change; first number: only marks the settling skip; later numbers are appended; the window never exceeds the cap and stops exactly when full |
| SampleWindow.OnLine | gravity/src/components/SerialDialog100.tsx:51-70 | an inactive session is left alone; a line never activates a session or un-marks the skip; below the cap the window grows by at most one sample and keeps the old ones as a prefix |
| ArrayOps.TakeLast | gravity/src/components/SerialDialog100.tsx:96 | `slice(-n)` gives the last min(n, length) entries |
| ArrayOps.RemoveAt | gravity/src/components/SerialDialog100.tsx:85 | `filter((_, i) => i !== index)` drops the entry at a valid index and keeps the rest in order; any other index changes nothing |
| ArrayOps.SumConcat | gravity/src/components/SerialDialog.tsx:78-79 | the `reduce` sum of joined lists is the sum of the sums |
| SampleWindow.Take | gravity/src/components/SerialDialog100.tsx:62-65 | the capped window is a prefix of at most n samples |
| SampleWindow.RunInactive | gravity/src/components/SerialDialog100.tsx:52 | an inactive session ignores every line |
| SampleWindow.RunCollects | gravity/src/components/SerialDialog100.tsx:51-70 | a collecting session keeps the first cap of old samples + new values and is active exactly while fewer arrived |
| SampleWindow.RunFromArmed | gravity/src/components/SerialDialog100.tsx:56-66 | after arming, the first value is dropped and the next cap values are kept |
| SerialDialog100.StartStep | gravity/src/components/SerialDialog100.tsx:72-77 | start empties the window, activates, re-arms the settling skip and clears the restart flag |
| SerialDialog100.StopStep | gravity/src/components/SerialDialog100.tsx:79-81 | stop clears only the active flag |
| SerialDialog100.RemoveStep | gravity/src/components/SerialDialog100.tsx:83-91 | the sample at the index is removed; the restart flag is set iff it was set or fewer than 90 remain |
| SerialDialog100.BlockSums | gravity/src/components/SerialDialog100.tsx:97-102 | nine sums |
| SerialDialog100.StepKeepsConsistent | gravity/src/components/SerialDialog100.tsx:41-91 | every event keeps at most 100 samples (fewer while active), and samples only after the settling skip |
| SerialDialog100.MustRestartPersists | gravity/src/components/SerialDialog100.tsx:86-95 | once set, only start or reopening clears the restart flag; saving stays impossible |
| SerialDialog100.FullRunAfterStart | gravity/src/components/SerialDialog100.tsx:56-77 | after start, lines with more than 100 values leave values 2..101, inactive and savable |
| SerialDialog100.StaleLineAtStart | gravity/src/components/SerialDialog100.tsx:51-77 | the effect re-run at start on a numeric stale line spends the settling skip on it; the window then holds the first 100 new values, stopped and savable |
| SerialDialog100.LinesRunAsSession | gravity/src/components/SerialDialog100.tsx:51-70 | line events act as the line effect and leave the restart flag |
| SerialDialog100.Dialog.constructor | gravity/src/components/SerialDialog100.tsx:35-38 | the initial state is the reset state |
| SerialDialog100.Dialog.Open | gravity/src/components/SerialDialog100.tsx:41-48 | opening resets all four fields |
| SerialDialog100.Dialog.Start | gravity/src/components/SerialDialog100.tsx:72-77 | the new state is StartStep of the old one; the invariant holds |
| SerialDialog100.Dialog.Stop | gravity/src/components/SerialDialog100.tsx:79-81 | the new state is StopStep of the old one |
| SerialDialog100.Dialog.OnLine | gravity/src/components/SerialDialog100.tsx:51-70 | the new state is the line effect on the old one; the invariant holds |
| SerialDialog100.Dialog.RemoveSample | gravity/src/components/SerialDialog100.tsx:83-91 | the new state is RemoveStep of the old one |
| SerialDialog100.Dialog.CanSaveNow | gravity/src/components/SerialDialog100.tsx:107 | at least 90 samples and no pending restart |
| SerialDialog100.Dialog.HandleSave | gravity/src/components/SerialDialog100.tsx:93-104 | saves iff savable; the nine block sums of the last 90 samples, which add up to their total |
| SerialDialog100.SumBlocks | gravity/src/components/SerialDialog100.tsx:96-102 | the loop's sums are the nine block sums of the 90 values, and together they add up to the 90 values |
| SerialDialog.StartStep | gravity/src/components/SerialDialog.tsx:63-66 | start empties the window and activates, leaving the settling flag as it was |
| SerialDialog.StopStep | gravity/src/components/SerialDialog.tsx:68-70 | stop clears only the active flag |
| SerialDialog.Mean | gravity/src/components/SerialDialog.tsx:78-79 | the mean times the number of samples is their `reduce` sum |
| SerialDialog.RemoveStep | gravity/src/components/SerialDialog.tsx:72-74 | the sample at the index is removed, nothing else changes |
| SerialDialog.MeanBounds | gravity/src/components/SerialDialog.tsx:78-79 | the mean lies between the bounds of the samples and times n gives the total |
| SerialDialog.MeanOfConstant | gravity/src/components/SerialDialog.tsx:78-79 | the mean of equal samples is that sample |
| SerialDialog.DisplayedAverage | gravity/src/components/SerialDialog.tsx:139-144 | "-" exactly for no samples, else a value that times n gives the total |
| SerialDialog.Dialog.constructor | gravity/src/components/SerialDialog.tsx:28-30 | the initial state is the reset state |
| SerialDialog.Dialog.Open | gravity/src/components/SerialDialog.tsx:33-39 | opening resets the three fields |
| SerialDialog.Dialog.Start | gravity/src/components/SerialDialog.tsx:63-66 | the new state is StartStep of the old one |
| SerialDialog.Dialog.Stop | gravity/src/components/SerialDialog.tsx:68-70 | the new state is StopStep of the old one |
| SerialDialog.Dialog.OnLine | gravity/src/components/SerialDialog.tsx:42-61 | the new state is the line effect with cap 20; the invariant holds |
| SerialDialog.Dialog.RemoveSample | gravity/src/components/SerialDialog.tsx:72-74 | the new state is RemoveStep of the old one |
| SerialDialog.Dialog.HandleSave | gravity/src/components/SerialDialog.tsx:76-81 | nothing iff fewer than 5 samples, else the mean of all of them |
| SerialDialog.RestartSkipsNothing | gravity/src/components/SerialDialog.tsx:47-66 | once the settling value was dropped, a later start keeps the first 20 values that arrive |
| SerialDialog.FirstStartSkipsOne | gravity/src/components/SerialDialog.tsx:33-66 | after opening, start drops the first value and keeps the next 20 |
| SerialDialog.RestartRecordsStaleLine | gravity/src/components/SerialDialog.tsx:41-66 | after a restart the effect re-run on a numeric stale line records that number as the first of the 20 samples |
| SerialDialog.FirstStartSkipsStaleLine | gravity/src/components/SerialDialog.tsx:41-66 | on the first start the stale number is the dropped settling value and the first 20 new values are kept |
| Pendulum2.Route | gravity/src/view/Pendulum2.tsx:22-27 | the sums replace the chosen channel's list; the other channel is unchanged |
| Pendulum2.Cell | gravity/src/view/Pendulum2.tsx:84-85 | a value exactly when the index is within the list, and then that entry |
| Pendulum2.Table | gravity/src/view/Pendulum2.tsx:31-41 | nine rows for the 10th..90th oscillation with both channels' cells |
| Pendulum2.SavedSumsFillColumn | gravity/src/view/Pendulum2.tsx:22-27 | nine saved sums fill the chosen column; the other column shows what it showed before |
| Pendulum2.View.constructor | gravity/src/view/Pendulum2.tsx:14-15 | dialog closed, channel A, data as given |
| Pendulum2.View.OpenDialogFor | gravity/src/view/Pendulum2.tsx:17-20 | remembers the channel and opens the dialog; data unchanged |
| Pendulum2.View.CloseDialog | gravity/src/view/Pendulum2.tsx:94 | closes the dialog, nothing else changes |
| Pendulum2.View.HandleSave | gravity/src/view/Pendulum2.tsx:22-29 | data become Route of the old data on the current channel; the dialog closes |
| ExportPage.Load | gravity/src/view/ExportPage.tsx:19-49 | missing data iff the parameter is absent or empty; loaded data come from the primary or the legacy decoding |
| ExportPage.PageClass | gravity/src/view/ExportPage.tsx:114-120 | the base classes, followed by "print:single-page" exactly when data are loaded and pendulum 1 has at most 20 rows, and by nothing otherwise |
| ExportPage.LegacyOnlyAfterPrimaryFails | gravity/src/view/ExportPage.tsx:29-39 | when the primary decoding succeeds its result is shown, whatever the legacy one does |
| ExportPage.DecodeFailsIffBothFail | gravity/src/view/ExportPage.tsx:29-46 | a decoding error exactly when both decodings fail |
| ExportPage.Padded | gravity/src/view/ExportPage.tsx:308-309 | the first n entries, missing ones read as 0 |
| ExportPage.CumulativeRows | gravity/src/view/ExportPage.tsx:272-329 | "no measurements" iff both lists are empty, else max+1 rows, row i labelled 10i with both running totals |
| ExportPage.RunningTotalStep | gravity/src/view/ExportPage.tsx:305-311 | consecutive totals differ by the next entry, 0 when missing |
| ExportPage.RunningTotalPrefix | gravity/src/view/ExportPage.tsx:305-311 | within the list the total is the sum of the first i entries |
| ExportPage.RunningTotalBeyond | gravity/src/view/ExportPage.tsx:305-311 | past the list's end the total is the whole sum |
| ExportPage.LastRowIsTotal | gravity/src/view/ExportPage.tsx:290-311 | the last row shows both totals, row 0 shows zeros |
| Base64Url.BinaryString | gravity/src/lib/localStorage.ts:79-81 | one character per byte with that byte's code |
| Base64Url.Atob | gravity/src/lib/localStorage.ts:94 | a decoded string holds only codes below 256 |
| Base64Url.StripTrailingEquals | gravity/src/lib/localStorage.ts:86 | the result is a prefix and only '=' were removed |
| Base64Url.ToBase64UrlAlphabet | gravity/src/lib/localStorage.ts:78-87 | the output holds only A-Z, a-z, 0-9, '-' and '_' |
| Base64Url.ReplacementsInverse | gravity/src/lib/localStorage.ts:84-90 | the URL replacements are undone by the reverse replacements |
| Base64Url.UrlBodyIsStripped | gravity/src/lib/localStorage.ts:78-87 | the URL text is the standard base64 body in the URL alphabet, without padding |
| Base64Url.AtobBtoa | gravity/src/lib/localStorage.ts:94 | atob of the standard base64 of some bytes gives their binary string |
| Base64Url.RepaddedIsBtoa | gravity/src/lib/localStorage.ts:90-93 | re-padding and re-replacing the URL text gives back the standard base64 text |
| Base64Url.RestoredPadding | gravity/src/lib/localStorage.ts:92 | at most three '=', completing a multiple of four, none iff already one |
| Base64Url.RoundTrip | gravity/src/lib/localStorage.ts:78-94 | decoding the re-padded URL text of any bytes gives those bytes back |
| Base64Url.ToBase64Url | gravity/src/lib/localStorage.ts:78-87 | the text holds no `+` or `/` and does not end in `=` |
| Base64Url.EncodeJsonToBase64Url | gravity/src/lib/localStorage.ts:103-106 | decoding the re-padded result gives back the UTF-8 bytes of the JSON text |
| Base64Url.ThreeMissingCharactersFail | gravity/src/lib/localStorage.ts:92-94 | a text of length 1 mod 4 gets three '=' and atob rejects it |
| Base64Url.FromBase64Url | gravity/src/lib/localStorage.ts:89-100 | fails iff atob fails, else the character codes; the output of toBase64Url decodes to its bytes |
| Base64Url.ByteCodes | gravity/src/lib/localStorage.ts:95-98 | a fresh array whose bytes are the character codes of the binary string, in order |
| Base64Url.DecodeBase64UrlToJson | gravity/src/lib/localStorage.ts:109-112 | undoes encodeJsonToBase64Url on the byte level |
| VACharacteristic.AddPoint | lapogen/src/view/VACharacteristic.tsx:27-39 | error iff the current is NaN or outside 1..30000; else amplitude 0, 1000 Hz, offset = current |
| ArrayOps.SortBySortsAndPermutes | lapogen/src/view/VACharacteristic.tsx:52 | the stable comparator sort returns a sorted permutation |
| ArrayOps.SortAppendedIsInsert | lapogen/src/view/LuxAmper.tsx:47 | sorting a sorted list with one item appended inserts the item after every item whose key is not greater |
| ArrayOps.SplitJoin | lapogen/src/components/ExportDialog.tsx:130-133 | splitting a `join` at its separator gives back the pieces when no piece holds it |
| VACharacteristic.FindIndex | lapogen/src/view/VACharacteristic.tsx:46 | -1 iff no point has the current, else the first index that has it |
| VACharacteristic.Save | lapogen/src/view/VACharacteristic.tsx:41-56 | an existing current is replaced in place; a new one is inserted, with the result sorted and a permutation |
| VACharacteristic.Delete | lapogen/src/view/VACharacteristic.tsx:58-60 | every point but the one at the index, in order |
| VACharacteristic.SaveKeepsAscending | lapogen/src/view/VACharacteristic.tsx:41-56 | saving keeps strictly ascending currents and the new point is present |
| VACharacteristic.SaveKeepsDistinct | lapogen/src/view/VACharacteristic.tsx:46-53 | for any list without repeated currents, saving keeps currents pairwise distinct and the new point is present |
| VACharacteristic.DeleteKeepsAscending | lapogen/src/view/VACharacteristic.tsx:58-60 | deleting keeps strictly ascending currents |
| LuxAmper.AddPoint | lapogen/src/view/LuxAmper.tsx:27-41 | error iff the amplitude is NaN or outside 0..30000; else 500 Hz, offset half the amplitude |
| LuxAmper.Save | lapogen/src/view/LuxAmper.tsx:43-49 | the point with the amplitude as current joins the list; sorted by current and a permutation |
| LuxAmper.SaveInsertsAfterEqual | lapogen/src/view/LuxAmper.tsx:47 | in a sorted list the new point goes after all points with a current not greater |
| LuxAmper.Delete | lapogen/src/view/LuxAmper.tsx:51-53 | every point but the one at the index, in order |
| LuxAmper.DeleteKeepsSorted | lapogen/src/view/LuxAmper.tsx:51-53 | deleting keeps the list sorted by current |
| FrequencyCharacteristic.AddPoint | lapogen/src/view/FrequencyCharacteristic.tsx:49-78 | amplitude, frequency and arm angle errors in that order, each exactly when its check fails; else (amplitude, frequency, half amplitude) |
| FrequencyCharacteristic.Save | lapogen/src/view/FrequencyCharacteristic.tsx:80-92 | the point joins the list; sorted by frequency and a permutation |
| FrequencyCharacteristic.SaveInsertsAfterEqual | lapogen/src/view/FrequencyCharacteristic.tsx:90 | in a sorted list the new point goes after all points with a frequency not greater |
| FrequencyCharacteristic.Delete | lapogen/src/view/FrequencyCharacteristic.tsx:94-96 | every point but the one at the index, in order |
| FrequencyCharacteristic.SeriesOf | lapogen/src/view/FrequencyCharacteristic.tsx:134-140 | one series per sorted amplitude, k-th coloured with palette entry k mod 8 |
| FrequencyCharacteristic.PointsOf | lapogen/src/view/FrequencyCharacteristic.tsx:138 | one (frequency, voltage) point per measurement, in order |
| FrequencyCharacteristic.SeriesCoverData | lapogen/src/view/FrequencyCharacteristic.tsx:123-140 | every amplitude in the data has a series |
| FrequencyCharacteristic.SeriesFromData | lapogen/src/view/FrequencyCharacteristic.tsx:123-140 | every series' amplitude occurs in the data |
| FrequencyCharacteristic.BuildChartSeries | lapogen/src/view/FrequencyCharacteristic.tsx:123-140 | the series built from the group map are SeriesOf the data |
| FrequencyCharacteristic.SeriesShape | lapogen/src/view/FrequencyCharacteristic.tsx:123-140 | strictly ascending amplitudes, each occurring in the data and every data amplitude having one; each series holds exactly its amplitude's points in order |
| FrequencyCharacteristic.SeriesAscending | lapogen/src/view/FrequencyCharacteristic.tsx:134-135 | the series come in strictly ascending amplitude order |
| AmplitudeGroups.GroupMembers | lapogen/src/view/FrequencyCharacteristic.tsx:125-130 | a point is in a group iff it is in the data with that key |
| AmplitudeGroups.GroupConcat | lapogen/src/view/FrequencyCharacteristic.tsx:125-130 | grouping joined lists joins the groups |
| AmplitudeGroups.GroupOfAbsentKey | lapogen/src/view/FrequencyCharacteristic.tsx:125-130 | a key that never occurs has an empty group |
| AmplitudeGroups.FirstKeysDistinct | lapogen/src/components/PolarChart.tsx:38-47 | the map's keys are distinct and are exactly the keys that occur |
| AmplitudeGroups.GroupBy | lapogen/src/components/PolarChart.tsx:38-47 | keys in first-appearance order, and each key maps to its points in order |
| AmplitudeGroups.SortedKeysAscending | lapogen/src/components/PolarChart.tsx:50-52 | sorting distinct keys gives a strictly ascending list of the same keys |
| AngleCharacteristic.AddPoint | lapogen/src/view/AngleCharacteristic.tsx:29-48 | amplitude error iff outside 0..30000; angle error iff outside [0, 360); else 500 Hz, offset half the amplitude |
| AngleCharacteristic.Save | lapogen/src/view/AngleCharacteristic.tsx:50-61 | the point joins the list; sorted by amplitude then angle and a permutation |
| AngleCharacteristic.SaveInsertsLexicographically | lapogen/src/view/AngleCharacteristic.tsx:56-58 | the new point goes after every point not greater in (amplitude, angle) order |
| AngleCharacteristic.Delete | lapogen/src/view/AngleCharacteristic.tsx:63-65 | every point but the one at the index, in order |
| AngleCharacteristic.DeleteKeepsSorted | lapogen/src/view/AngleCharacteristic.tsx:63-65 | deleting keeps the order |
| AngleCharacteristic.PolarData | lapogen/src/view/AngleCharacteristic.tsx:85-89 | one polar point per measurement with its angle, voltage as value, and amplitude |
| PolarChart.Normalized | lapogen/src/components/PolarChart.tsx:28 | within [0, 1]; 0 up to 15000, 1 from 30000, linear between |
| PolarChart.Hue | lapogen/src/components/PolarChart.tsx:31 | within [0, 240] |
| PolarChart.Saturation | lapogen/src/components/PolarChart.tsx:32 | within [70, 100] |
| PolarChart.ColourMonotone | lapogen/src/components/PolarChart.tsx:25-35 | a larger amplitude never has a larger hue or a smaller saturation |
| PolarChart.SignedAngle | lapogen/src/components/PolarChart.tsx:67 | within -89..90 and equal to the index or the index minus 180 |
| PolarChart.FormatAngle | lapogen/src/components/PolarChart.tsx:55-64 | "0°", "±90°" at ±90, else sign, magnitude and "°" |
| PolarChart.FormatReadsBack | lapogen/src/components/PolarChart.tsx:55-64 | every formatted angle except -90 (shown as "±90°", like 90) reads back as itself |
| PolarChart.Labels | lapogen/src/components/PolarChart.tsx:66-72 | 180 labels, each Label of its index |
| PolarChart.LabelReadsBack | lapogen/src/components/PolarChart.tsx:54-73 | a label exactly for multiples of ten, and its number reads back as the signed angle |
| PolarChart.Slot | lapogen/src/components/PolarChart.tsx:83 | a slot in 0..179 equal to the rounded angle modulo 180 |
| PolarChart.Round | lapogen/src/components/PolarChart.tsx:83 | `Math.round`: the integer within half a unit, halves rounding up |
| PolarChart.TruncRem180 | lapogen/src/components/PolarChart.tsx:83 | JavaScript `%` by 180: the Euclidean remainder for non-negative operands, a non-positive remainder congruent to the operand otherwise |
| PolarChart.SlotsOf | lapogen/src/components/PolarChart.tsx:80-85 | 180 slots, each holding SlotValue |
| PolarChart.SlotAngle | lapogen/src/components/PolarChart.tsx:67-83 | an integer angle in [0, 360) lands on the slot whose signed angle is congruent to it |
| PolarChart.SlotValueIsLast | lapogen/src/components/PolarChart.tsx:82-85 | a slot is empty iff no point falls in it, else it holds the last point that does |
| PolarChart.FillSlots | lapogen/src/components/PolarChart.tsx:80-85 | a fresh array of 180 slots, each holding SlotValue |
| PolarChart.DatasetsOf | lapogen/src/components/PolarChart.tsx:78-95 | one dataset per sorted amplitude |
| PolarChart.BuildDatasets | lapogen/src/components/PolarChart.tsx:75-97 | the datasets built per group are DatasetsOf the data |
| PolarChart.DatasetsShape | lapogen/src/components/PolarChart.tsx:75-97 | strictly ascending amplitudes that occur in the data; slots filled from the own group; hue in [0, 240] |
| PolarChart.DatasetsCoverData | lapogen/src/components/PolarChart.tsx:38-52 | every amplitude in the data has a dataset |
| AngleGaugeChart.Clamp | lapogen/src/components/AngleGaugeChart.tsx:23 | within the range, the value itself inside it, the nearer end outside |
| AngleGaugeChart.Keep | lapogen/src/components/AngleGaugeChart.tsx:47-76 | a segment is drawn exactly when its size is positive |
| AngleGaugeChart.BuildSegments | lapogen/src/components/AngleGaugeChart.tsx:26-77 | the parallel size and colour arrays are the segments, every size positive |
| AngleGaugeChart.PushKept | lapogen/src/components/AngleGaugeChart.tsx:47-50 | one conditional push: the segment is appended to both arrays exactly when its size is positive, and the arrays stay parallel |
| AngleGaugeChart.PushRuns | lapogen/src/components/AngleGaugeChart.tsx:47-58 | the three conditional pushes list the grey, filled and grey runs of positive size, in that order |
| AngleGaugeChart.SegmentsCoverArc | lapogen/src/components/AngleGaugeChart.tsx:26-77 | the segments add up to 100 exactly when zero lies on the scale |
| AngleGaugeChart.OneFilledSegment | lapogen/src/components/AngleGaugeChart.tsx:41-77 | away from zero exactly one segment is filled, sized by the value's distance from zero |
| AngleGaugeChart.ZeroIsAllGrey | lapogen/src/components/AngleGaugeChart.tsx:37-40 | at zero a single grey 100 |
| AngleGaugeChart.SignPrefix | lapogen/src/components/AngleGaugeChart.tsx:118 | "+" exactly before a positive clamped value |
| XYChart.AllValuesMembers | lapogen/src/components/XYChart.tsx:64-69 | a number is gathered iff some point of some series has it; NaN never |
| XYChart.MinOf | lapogen/src/components/XYChart.tsx:102 | an element not above any element |
| XYChart.MaxOf | lapogen/src/components/XYChart.tsx:103 | an element not below any element |
| XYChart.AxisRange | lapogen/src/components/XYChart.tsx:100-139 | no range exactly without numbers |
| XYChart.LinearRangeEncloses | lapogen/src/components/XYChart.tsx:113-118 | the linear range holds every number and is 1.1 times their span |
| XYChart.LogRangeEncloses | lapogen/src/components/XYChart.tsx:106-112 | the log range never starts below the floor and holds every number at or above a positive floor |
| XYChart.AxisConfig.constructor | lapogen/src/components/XYChart.tsx:79-98 | the type follows the flag; no range yet |
| XYChart.AxisConfig.SetRange | lapogen/src/components/XYChart.tsx:101-119 | without numbers nothing changes, else min and max become AxisRange's |
| XYChart.BuildAxes | lapogen/src/components/XYChart.tsx:64-139 | fresh configurations, types from the flags, ranges from each axis's numbers with floors 0.1 and 0.001 |
| XYChart.DatasetColor | lapogen/src/components/XYChart.tsx:150-152 | the series' own colour when set, else palette entry idx mod 8 |
| ExportDialog.Map | lapogen/src/components/ExportDialog.tsx:25-39 | `map`: one tuple per item, each the item's own tuple, in order |
| ExportDialog.AsWrittenLosesLuxCurrent | lapogen/src/components/ExportDialog.tsx:39 | every u4 tuple starts with a missing value; two lists differing only in currents export identically |
| ExportDialog.SerializeRoundTrip | lapogen/src/components/ExportDialog.tsx:22-43 | with the current in u4, decoding gives back all four lists, only the frequency ids blanked |
| ExportDialog.SerializeAsWritten | lapogen/src/components/ExportDialog.tsx:22-43 | one tuple per point in each list, the timestamp kept; u1 to u3 hold no missing value; every u4 tuple is a missing value then the voltage |
| ExportDialog.Serialize | lapogen/src/components/ExportDialog.tsx:22-43 | with the current in u4: one tuple per point in each list, the timestamp kept, no missing value anywhere |
| ExportDialog.ExportUrl | lapogen/src/components/ExportDialog.tsx:46-51 | the URL starts with the page address before any `#`, which holds no `#`, followed by `#` |
| ExportDialog.DecodeTuples | lapogen/src/components/ExportDialog.tsx:25-39 | decoding each tuple of a list gives back the list, up to what the tuples do not carry |
| ExportDialog.FirstPieceLacks | lapogen/src/components/ExportDialog.tsx:49 | the part before the first '#' holds no '#' |
| ExportDialog.FragmentLacksHash | lapogen/src/components/ExportDialog.tsx:48-50 | the route and the payload hold no '#' |
| ExportDialog.ExportUrlCarriesPayload | lapogen/src/components/ExportDialog.tsx:46-51 | the URL splits at its only '#' into the address without fragment and the route with the payload, which decodes to the serialized bytes |
| ExportDialog.Lookup | lapogen/src/components/ExportDialog.tsx:132 | "" or the text of a field with that name |
| ExportDialog.Names | lapogen/src/components/ExportDialog.tsx:129 | `Object.keys`: the field names in order |
| ExportDialog.RowTexts | lapogen/src/components/ExportDialog.tsx:132 | one cell per header key, each the row's value for that key |
| ExportDialog.WithoutIds | lapogen/src/components/ExportDialog.tsx:33-37 | the frequency points as they come back from u3, ids blank and all else kept |
| ExportDialog.CsvLines | lapogen/src/components/ExportDialog.tsx:129-133 | the header of the first record's keys, then one line per record in header order |
| ExportDialog.ExportCsv | lapogen/src/components/ExportDialog.tsx:119-133 | nothing iff the list is empty, else the lines each ended by "\n" |
| ExportDialog.SplitTerminated | lapogen/src/components/ExportDialog.tsx:130-133 | the text splits at "\n" into the lines and a final empty piece |
| ExportDialog.CsvReadsBack | lapogen/src/components/ExportDialog.tsx:129-133 | without ',' or line ends in names and values, the text splits back into header keys and row values |
| ExportDialog.Records | lapogen/src/components/ExportDialog.tsx:121-122 | one record per point, with its type's property names |
| ExportDialog.KindHeader | lapogen/src/components/ExportDialog.tsx:129-130 | each list's header line |
| ExportDialog.CsvOfKind | lapogen/src/components/ExportDialog.tsx:119-133 | each list's header, and each row's values in declaration order |
| ExportDialog.TotalPointsCountsTuples | lapogen/src/components/ExportDialog.tsx:144-148 | the point count equals the number of exported tuples |
| ExportDialog.TotalPoints | lapogen/src/components/ExportDialog.tsx:144-148 | zero exactly when all four lists are empty |

## Left out

- Serial I/O, the Web Serial context and device telemetry are not modelled. A received line is a parameter of `OnLine`. The generator parameters that the views send with `setParameters` are a returned value.
- The React lifecycle is not modelled. Each change of `lastLine` is one call of `OnLine`. The collection effect also depends on `measurementActive`, so `start` makes it run once more on the line received before `start`. The model writes that re-run as an extra line event at the head of the stream: `SerialDialog.RestartRecordsStaleLine`, `SerialDialog.FirstStartSkipsStaleLine` and `SerialDialog100.StaleLineAtStart`.
- SerialDialog.RestartSkipsNothing: counts only lines that arrive after `start`, so it describes a restart whose stale line holds no number. With a number there, that number becomes the first of the 20 samples (`RestartRecordsStaleLine`).
- SerialDialog.FirstStartSkipsOne: counts only lines that arrive after `start`. With a number in the stale line, that number is the dropped settling value and the first new value is kept (`FirstStartSkipsStaleLine`).
- SerialDialog100.FullRunAfterStart: counts only lines that arrive after `start`. With a number in the stale line, the window holds the 1st to 100th new value instead (`StaleLineAtStart`).
- The 100 ms `setTimeout` before a dialog opens, `alert` messages and the dialogs' `onClose` wiring are left out.
- Persistence in `localStorage` and the JSON load and save helpers of both applications are left out. They are thin wrappers around the browser.
- JSON serialization and parsing are left out. So are `TextEncoder`/`TextDecoder`, which are parameters (`utf8Encode`, `utf8Decode`). The export page's two decodings are parameters too: the primary one inflates the payload, which needs compression helpers the source files do not define.
- `lapogen/src/lib/localStorage.ts` does not define the `encodeJsonToBase64Url` that the lapogen export dialog imports. The model uses gravity's definition (`gravity/src/lib/localStorage.ts:103-106`).
- QR-code generation, clipboard access, file downloads, file names and `window.print` are left out.
- The `exportAsJSON` download is left out, because it is `JSON.stringify` of the state.
- Number formatting (`toFixed`, `String(number)` in CSV cells) is left out. The CSV records take a `show` function for it.
- `Date` and `toISOString` timestamps are parameters.
- Base64Url.Atob: whitespace handling follows the forgiving-base64 algorithm, but characters outside Latin-1 (where `btoa` throws) cannot occur, because the model only encodes bytes.
- IEEE-754 floating point is not modelled: numbers are exact reals. `NaN` appears only as `None` where the code tests for it (`isNaN`, the x-y chart's filter).
- AngleGaugeChart.BuildSegments: requires `min < max`. With `min >= max` the source divides by zero or by a negative range. The prop comments give the range as typically -180 to 180 (`lapogen/src/components/AngleGaugeChart.tsx:9-10`), so the model keeps to an increasing range.
- FrequencyCharacteristic.Save: the identifier from `crypto.randomUUID` (or the time-and-random fallback) is a parameter.
- Chart labels and captions built by string templates (`${amplitude} uA`) are not modelled. Neither are Chart.js options and styling.
- Colours are not modelled as CSS strings: hue and saturation are numbers, and gauge colours are `Grey`/`Fill`.
- The line framer's chunking invariance holds only when no CRLF straddles a chunk boundary (`FeedTwiceIsFeedOnce`). `StraddlingCrLfAddsEmptyLine` shows the extra empty line otherwise. The code splits each chunk's text eagerly, so the code, not the wish for invariance, is what is modelled.
- ExportPage: `formatTimestamp`, the pendulum-1 table and the rest of the page markup are not modelled. Of the page's classes only the single-page print class is (`PageClass`).

## Findings

| source | as written | input that shows it | evidently intended | confidence | as-written member | corrected member |
|---|---|---|---|---|---|---|
| lapogen/src/components/ExportDialog.tsx:39 | `u4` maps each lux-ampere point to `[item.amplitude, item.voltage]`, but `LuxAmperData` has only `current` and `voltage`, so the first entry is always `undefined` (`null` in JSON) | `luxAmper = [{current: 1000, voltage: 0.5}]` and `[{current: 2000, voltage: 0.5}]` export the same `u4 = [[null, 0.5]]` | `[item.current, item.voltage]`, the drive current the view stores | not executed | ExportDialog.AsWrittenLosesLuxCurrent | ExportDialog.SerializeRoundTrip |
