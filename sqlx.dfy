/** The part of `sqlx::Error` the error conversions look at. */
module Sqlx {

  /** `RowNotFound`, or any other database error, kept by its description. */
  datatype Error = RowNotFound | Other(description: string)
}
