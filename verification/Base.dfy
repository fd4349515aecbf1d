/** Result types shared by the model's modules. */
module Base {

  datatype Option<+T> = None | Some(value: T)

  /** Rust's `Result`; `:-` is its `?`. */
  datatype Result<+T, +E> = Ok(value: T) | Err(error: E) {
    predicate IsFailure() { Err? }

    function PropagateFailure<U>(): Result<U, E>
      requires Err?
    {
      Err(error)
    }

    function Extract(): T
      requires Ok?
    {
      value
    }
  }

  /** The first `limit` elements, or all of them when there are fewer. */
  function Take<T>(s: seq<T>, limit: nat): (r: seq<T>)
    ensures r <= s && |r| == if |s| < limit then |s| else limit
  {
    if |s| < limit then s else s[..limit]
  }
}
