/** Outcomes shared by every component of the mosaic core. */
module Errors {

  /** A value that may be missing: a sample read outside a buffer, a sweep step past the last image. */
  datatype Option<T> = None | Some(value: T)

  /** The ways an operation of the core can fail. */
  datatype Error =
    | MismatchedSize       // the two point lists differ in length or hold fewer than 4 points
    | UndefinedProjection  // a point the operation needs projects to a zero w-coordinate
    | BadHomography        // the warped canvas has a side of length zero or less
    | NegativeCanvas       // a composite canvas would be allocated with a negative side
    | RanPastLastImage     // the cylindrical sweep needs a boundary pair beyond the list

  datatype Result<T> = Ok(value: T) | Err(error: Error)
}
