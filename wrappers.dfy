/** The optional value used where the server stores or reads a value that may
    be absent (`dict.get`, an optional excluded socket, an optional argument). */
module Wrappers {

  datatype Option<+T> = None | Some(value: T)
}
