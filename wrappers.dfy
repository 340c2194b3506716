/** Failure-compatible Option and Result types used throughout the model. */
module Wrappers {

  datatype Option<+T> = None | Some(value: T)

  datatype Result<+R, +E> = Success(value: R) | Failure(error: E) {
    predicate IsFailure() {
      Failure?
    }

    function PropagateFailure<U>(): Result<U, E>
      requires Failure?
    {
      Failure(error)
    }

    function Extract(): R
      requires Success?
    {
      value
    }
  }
}

/** The ways the section-stack bookkeeping aborts. Each one stands for an
    exception the Python code raises (or lets a library raise). */
module Errors {

  datatype Error =
    /** A required key is absent (KeyError) or a list is too short (IndexError). */
    | MissingField(key: string)
    /** A value has the wrong shape: indexing a non-object, a non-numeric number. */
    | WrongType(key: string)
    /** Fewer than two sections: `indices[0]` or `diff[0]` fails. */
    | TooFewSections(count: nat)
    /** The in-plane resolution is zero, so the x/y sizes divide by zero. */
    | ZeroResolution
    /** The smallest section gap is zero, so the z size divides by zero. */
    | ZeroGap
    /** A computed image size is negative and cannot be allocated. */
    | NegativeSize
    /** The z spacing is zero, which the image library refuses. */
    | ZeroSpacing
    /** The section image file cannot be read. */
    | ImageNotFound(name: string)
    /** A section's z-index falls outside the allocated volume. */
    | ZIndexOutOfRange(sectionNumber: int, zIndex: int)
}
