/** The optional value used throughout the model: `None` stands for JavaScript's
    `undefined` field, a missing request body, or a NaN produced by a number conversion. */
module Wrappers {
  datatype Option<+T> = None | Some(value: T)
}
