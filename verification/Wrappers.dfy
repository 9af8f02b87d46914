/** Result and option types shared by all modules. */
module Wrappers {

  datatype Option<+T> = None | Some(value: T) {
    /** The value, or `default` where the Go code has nil and calls ptr.Deref. */
    function GetOr(default: T): T {
      match this
      case Some(v) => v
      case None => default
    }
  }

  datatype Result<+T, +E> = Success(value: T) | Failure(error: E)

  const MAX_INT32 := 0x7fff_ffff
  const MIN_INT32 := -0x8000_0000

  predicate IsInt32(n: int) {
    MIN_INT32 <= n <= MAX_INT32
  }

  /** Two's-complement truncation to 32 bits: what Go's int32 arithmetic stores. */
  function Wrap32(n: int): (r: int)
    ensures IsInt32(r)
    ensures IsInt32(n) ==> r == n
  {
    (n + 0x8000_0000) % 0x1_0000_0000 - 0x8000_0000
  }
}
