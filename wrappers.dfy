/** A value that may be absent: an empty spreadsheet cell, or a row that falls in no bin. */
module Wrappers {

  datatype Option<+T> = None | Some(value: T)
}
