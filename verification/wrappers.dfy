/** Optional values: the PDF library's text extraction returns either a string
    or nothing (Python's None). */
module Wrappers {

  datatype Option<T> = None | Some(value: T)
}
