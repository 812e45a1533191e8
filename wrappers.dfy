/** The optional value used wherever the dashboard script can fail with an
    exception (a missing row, a missing list entry) that its top-level
    handler turns into an error message. */
module Wrappers {

  datatype Option<+T> = None | Some(value: T)

}
