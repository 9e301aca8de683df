/** Optional values: `None` stands for a Rust `None` and, for operations that
    panic in the source, for the panic. */
module Wrappers {

  datatype Option<+T> = None | Some(value: T)

}
