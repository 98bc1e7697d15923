/** The optional value used for per-tick outputs that some ticks do not produce. */
module Wrappers {

  datatype Option<+T> = None | Some(value: T)
}
