/** The optional value a handler's matcher returns: `None` is "no match". */
module Wrappers {

  datatype Option<+T> = None | Some(value: T)

}
