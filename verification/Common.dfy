/** The stock option type of the models. */
module Common {
  datatype Option<+T> = None | Some(value: T)
}
