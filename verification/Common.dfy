/** Small types shared by the modules of the model. */
module Common {
  datatype Option<+T> = None | Some(value: T)

  datatype Result<+T, +E> = Ok(value: T) | Err(error: E)

  /** A field of a request body: absent, or present with a value that may be null. */
  datatype Field<+T> = Unset | SetTo(value: Option<T>) {
    function Get(): Option<T> {
      if Unset? then None else value
    }
  }

  /** How many rows a stream reads at a time (`backend/app/realtime/service.py`). */
  const SSE_BATCH_SIZE := 50

  /** The first `n` elements, as `LIMIT n` and the slice `s[:n]` leave them. */
  function Take<T>(s: seq<T>, n: nat): seq<T> {
    if n < |s| then s[..n] else s
  }
}
