/** Small datatypes shared by every module of the model. */
module Common {

  /** A value that may be absent: a missing session, a record findOne did not find, a query parameter not sent. */
  datatype Option<+T> = None | Some(value: T)
}
