/** Small datatypes shared by every part of the model. */
module Common {

  /** The result of a partial operation. */
  datatype Option<+T> = None | Some(value: T)
}
