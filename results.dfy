/** Outcomes of operations that can throw in the original program. */
module Results {

  /** The exceptions the modelled code can raise. */
  datatype Fault =
    | EmptySequence  // LINQ Min()/Max() over no elements (InvalidOperationException)
    | NullReference  // iterating a per-worker dictionary that was never allocated

  datatype Result<T> = Ok(value: T) | Err(fault: Fault)

  /** A reference that may be null. */
  datatype Option<T> = None | Some(value: T)
}
