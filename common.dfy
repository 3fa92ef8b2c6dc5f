/** Small wrappers shared by every component model. */
module Common {

  /** A value that may be absent: a nullable column, or the result of `Array.prototype.find`. */
  datatype Option<T> = None | Some(value: T)

  /** What one backend read hands the component: the rows it asked for, or an error (no data). */
  datatype Response<T> = Data(rows: T) | Error
}
