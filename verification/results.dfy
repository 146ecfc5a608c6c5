/** Error kinds raised by the interpreter, and a failure-compatible Result. */
module Results {

  /** What the interpreter throws. The first three are the strings the source
      throws itself; TypeError stands for a host exception (a property read on
      undefined, calling something that is not a function); Unmodelled marks a
      host behaviour (numeric coercion, object identity, function source text)
      that lies outside this model. */
  datatype Error =
    | Unbalanced
    | OddMap
    | NotFound(name: string)
    | TypeError(detail: string)
    | Unmodelled(detail: string)

  datatype Option<+T> = None | Some(value: T)

  datatype Result<+T> = Ok(value: T) | Err(error: Error) {

    predicate IsFailure() {
      Err?
    }

    function PropagateFailure<U>(): Result<U>
      requires Err?
    {
      Err(error)
    }

    function Extract(): T
      requires Ok?
    {
      value
    }
  }
}
