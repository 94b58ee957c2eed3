/** The optional-value and result types used wherever the source returns `undefined` or throws. */
module Options {
  datatype Option<+T> = None | Some(value: T)

  /** `Fault` stands for a `TypeError` thrown by the JavaScript engine. */
  datatype Result<+T> = Ok(value: T) | Fault
}
