/** Small value types shared by the middleware and the book routes. */
module Common {

  /** A value that may be absent: a missing header, query parameter or body field,
      a failed lookup, or a collaborator call that did not succeed. */
  datatype Option<+T> = None | Some(value: T)
}
