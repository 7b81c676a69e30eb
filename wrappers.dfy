/** Optional values and results with an error, used for the spreadsheet's
    blank cells, Python's None and the exceptions the program can raise. */
module Wrappers {

  datatype Option<+T> = None | Some(value: T)

  datatype Result<+T, +E> = Ok(value: T) | Err(error: E)
}
