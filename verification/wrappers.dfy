/** An optional result: `findOne` either finds a record position or finds nothing. */
module Wrappers {

  datatype Option<+T> = None | Some(value: T)
}
