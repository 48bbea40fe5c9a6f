/**
 * Optional values, used where the Python program raises and catches an
 * exception: a `ValueError` from `float()`, or a `FileNotFoundError` for a
 * model or data file that is missing.
 */
module Wrappers {

  datatype Option<+T> = None | Some(value: T)
}
