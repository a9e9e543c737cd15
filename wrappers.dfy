/** The optional value used throughout the model: a header that may be absent,
    a search that may find nothing, a send or a tool call that may fail. */
module Wrappers {
  datatype Option<+T> = None | Some(value: T)
}
