/** Failure-carrying values shared by the whole model.

    Python signals "no value" with `None` and failures with exceptions; the
    model returns an `Option` or a `Result` instead, and names the exception
    that the library would have raised in `Error`.
 */
module Outcomes {

  datatype Option<+T> = None | Some(value: T)

  /** The exceptions the modelled functions can raise. */
  datatype Error =
    | YearOutOfRange    // ValueError: year is out of range
    | MonthOutOfRange   // ValueError: month must be in 1..12
    | DayOutOfRange     // ValueError: day is out of range for month
    | DateOverflow      // OverflowError: date value out of range
    | IntOverflow       // OverflowError: an argument does not fit a C int
    | NoMatch           // ValueError: time data does not match format

  datatype Result<+T> = Ok(value: T) | Err(error: Error)
}
