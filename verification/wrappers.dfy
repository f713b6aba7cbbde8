/** An optional value, used where the driver can fail to produce a result. */
module Wrappers {
  datatype Option<+T> = None | Some(value: T)
}
