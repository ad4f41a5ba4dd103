/** Failure-carrying results shared by the division and its queries. */
module Results {

  /** The only failure the division reports: a team name it does not know
      (an IllegalArgumentException in the original). */
  datatype Error = IllegalArgument

  /** A value or its absence; `None` plays the part of a null reference. */
  datatype Option<+T> = None | Some(value: T)

  /** A value, or the error raised instead of producing it. */
  datatype Result<+T> = Ok(value: T) | Err(error: Error)

  /** The outcome of a check that produces no value. */
  datatype Outcome = Pass | Fail(error: Error)
}
