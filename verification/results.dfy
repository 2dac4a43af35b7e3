/** Failure-compatible wrappers shared by the model.

    `Result` carries the one error the indexer's handlers can raise on their
    own: an address the chain's address codec refuses. */
module Results {

  /** An optional value: the entity store's `get` answers `None` for a
      missing key, the address codec answers `None` for a malformed address. */
  datatype Option<+T> = None | Some(value: T)

  /** Errors that abort the handling of one event. */
  datatype Error = DecodeError(address: string)

  /** The outcome of a resolution or of a handler; usable with `:-`. */
  datatype Result<+T> = Ok(value: T) | Err(error: Error) {

    predicate IsFailure() {
      Err?
    }

    function PropagateFailure<U>(): Result<U>
      requires Err?
    {
      Err(error)
    }

    function Extract(): T
      requires Ok?
    {
      value
    }
  }
}
