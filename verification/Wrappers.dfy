/** Small result types shared by every component. */
module Wrappers {

  /** A value that may be absent: Perl's undef, C's NULL. */
  datatype Option<+T> = None | Some(value: T)

  /** The outcome of an operation that may end the program (Perl's die). */
  datatype Result<+T> = Ok(value: T) | Died
}
