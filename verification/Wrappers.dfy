/** Small definitions shared by every module. */
module Wrappers {

  datatype Option<+T> = None | Some(value: T) {
    function UnwrapOr(default: T): T {
      if Some? then value else default
    }
  }

  datatype Result<+T, +E> = Success(value: T) | Failure(error: E)

  function Max0(n: int): nat {
    if n > 0 then n else 0
  }

  lemma Associate<T>(a: seq<T>, b: seq<T>, c: seq<T>)
    ensures a + (b + c) == (a + b) + c
  {
  }
}
