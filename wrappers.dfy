/** An optional value, for the host references the plugin keeps as `None` or an object. */
module Wrappers {

  datatype Option<+T> = None | Some(value: T)
}
