/** Result types and machine integers shared by every component. */
module GoTypes {

  datatype Option<+T> = None | Some(value: T)

  /** The sentinel errors of the storage interface. */
  datatype Error = KeyNotFound | IndexOutOfRange | StorageClosed

  /** A Go `(value, error)` pair: the value is meaningful only without an error. */
  datatype Result<+T> = Ok(value: T) | Err(error: Error) {

    function Failure(): Option<Error> {
      if Err? then Some(error) else None
    }

    /** The value, or the zero value that Go returns beside an error. */
    function Else(zero: T): T {
      if Ok? then value else zero
    }
  }

  const MIN_INT64 := -0x8000_0000_0000_0000
  const MAX_INT64 := 0x7FFF_FFFF_FFFF_FFFF

  predicate IsInt64(x: int) {
    MIN_INT64 <= x <= MAX_INT64
  }

  /** Two's complement wrap-around of 64-bit arithmetic. */
  function Wrap64(x: int): (r: int)
    ensures IsInt64(r)
    ensures IsInt64(x) ==> r == x
  {
    (x - MIN_INT64) % 0x1_0000_0000_0000_0000 + MIN_INT64
  }

  /** It is the one 64-bit integer that differs by a multiple of 2^64. */
  lemma Wrap64Is(x: int, w: int)
    requires IsInt64(w) && (x - w) % 0x1_0000_0000_0000_0000 == 0
    ensures Wrap64(x) == w
  {
  }

  const MIN_INT32 := -0x8000_0000
  const MAX_INT32 := 0x7FFF_FFFF

  /** Two's complement wrap-around of 32-bit arithmetic. */
  function Wrap32(x: int): (r: int)
    ensures MIN_INT32 <= r <= MAX_INT32
    ensures MIN_INT32 <= x <= MAX_INT32 ==> r == x
  {
    (x - MIN_INT32) % 0x1_0000_0000 + MIN_INT32
  }

  /** It is the one 32-bit integer that differs by a multiple of 2^32. */
  lemma Wrap32Is(x: int, w: int)
    requires MIN_INT32 <= w <= MAX_INT32 && (x - w) % 0x1_0000_0000 == 0
    ensures Wrap32(x) == w
  {
  }

  function Max(x: int, y: int): int {
    if x > y then x else y
  }

  function Min(x: int, y: int): int {
    if x < y then x else y
  }
}
