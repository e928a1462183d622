/** Shared value types: optional values and results, Go's fixed-width integers and the raw
    data the core only moves around (vector elements, serialised metadata). */
module Types {

  datatype Option<T> = None | Some(value: T)

  /** A Go `(value, error)` pair: exactly one of the two is meaningful. */
  datatype Result<T, E> = Success(value: T) | Failure(error: E)

  /** A `float32` vector element, carried as its bit pattern: the modelled core only copies
      vector elements, it never computes with them. */
  type Float32 = bv32

  /** Serialised bytes (`[]byte`), e.g. JSON-encoded metadata, treated as opaque. */
  type Bytes = seq<bv8>

  const TwoTo31: int := 0x8000_0000
  const TwoTo32: int := 0x1_0000_0000
  const TwoTo63: int := 0x8000_0000_0000_0000
  const TwoTo64: int := 0x1_0000_0000_0000_0000

  predicate IsInt64(x: int) { -TwoTo63 <= x < TwoTo63 }

  predicate IsUint64(x: int) { 0 <= x < TwoTo64 }

  /** Two's-complement truncation of a mathematical integer to `int64`. */
  function Wrap64(x: int): (r: int)
    ensures IsInt64(r)
    ensures (r - x) % TwoTo64 == 0
    ensures IsInt64(x) ==> r == x
  {
    var m := (x + TwoTo63) % TwoTo64;
    assert x + TwoTo63 == (x + TwoTo63) / TwoTo64 * TwoTo64 + m;
    m - TwoTo63
  }

  /** The element count of a Go slice of slices, summed over its rows. */
  function TotalLength<T>(rows: seq<seq<T>>): nat
  {
    if rows == [] then 0 else TotalLength(rows[..|rows| - 1]) + |rows[|rows| - 1]|
  }
}
