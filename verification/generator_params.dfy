/**
 * The signal-generator settings the lapogen views send before a measurement:
 * the amplitude, the frequency and the offset of the LED current.
 */
module GeneratorParams {
  import Wrappers

  /** `setParameters(amplitude, frequency, offset)`, in microamperes and hertz. */
  datatype Params = Params(amplitude: real, frequency: real, offset: real)

  /** The largest amplitude or current any view accepts, in microamperes. */
  const MaxCurrent: real := 30000.0

  /** An input field read with `parseFloat`: `None` stands for `NaN`. */
  type NumberInput = Wrappers.Option<real>

  /** `!isNaN(x) && lo <= x && x <= hi`. */
  predicate InRange(x: NumberInput, lo: real, hi: real)
  {
    x.Some? && lo <= x.value <= hi
  }
}
