/** Rust's `Option` and `Result`, as the core uses them. */
module Wrappers {

  datatype Option<+T> = None | Some(value: T)

  datatype Result<+T, +E> = Ok(value: T) | Err(error: E)

  /** An extraction that yields nothing usable is reported as `None`, never as `Some([])`. */
  function NonEmpty<T>(v: seq<T>): (r: Option<seq<T>>)
    ensures r.None? <==> |v| == 0
    ensures r.Some? ==> r.value == v
  {
    if |v| > 0 then Some(v) else None
  }
}
