/** The optional value used wherever the source returns `std::optional` or a
    success flag with an out-parameter. */
module Wrappers {

  datatype Option<+T> = None | Some(value: T)
}
