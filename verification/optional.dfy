/** The absent-or-present value used throughout the model: JavaScript's
    `undefined` versus a defined value. */
module Optional {

  datatype Option<+T> = None | Some(value: T)
}
