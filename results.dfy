/** The Python exceptions the sweep code raises, and the result type that carries them. */
module Results {

  /** The exception classes raised by the modelled code (directly, or by the built-ins and the
      numpy reductions it calls). */
  datatype Error =
    | ValueError      // raised explicitly: an empty table, an object that cannot be wrapped
    | TypeError       // a reduction or a call on an argument of the wrong kind
    | AttributeError  // an attribute looked up on an object that lacks it
    | IndexError      // `_sweep_objects[0]` of an empty Nest

  datatype Result<T> = Ok(value: T) | Err(error: Error)

  datatype Option<T> = None | Some(value: T)
}
