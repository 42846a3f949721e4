/** Shared vocabulary: identifiers, bytes, instants, and the error kinds of the store. */
module Basics {

  datatype Option<+T> = None | Some(value: T) {
    function GetOr(default: T): T {
      if Some? then value else default
    }

    /** `self.or(other)` */
    function Or(other: Option<T>): Option<T> {
      if Some? then this else other
    }
  }

  /** The errors of the store and the service that the model tells apart. */
  datatype Error = NotFound | InvalidArgument | FailedPrecondition | InvalidState | Internal

  datatype Result<+T> = Ok(value: T) | Err(error: Error)

  /** A UUID, read as the 128-bit number that gives its order. */
  type RunId = nat
  type WorkerId = nat

  newtype Byte = x: int | 0 <= x < 256
  type Bytes = seq<Byte>

  /** A time, in microseconds: the resolution of a Postgres timestamp. */
  type Instant = int

  const MICROS_PER_SECOND: int := 1_000_000
  const MICROS_PER_MILLI: int := 1_000

  lemma SubsetSize<T>(a: set<T>, b: set<T>)
    requires a <= b
    ensures |a| <= |b|
    ensures a < b ==> |a| < |b|
  {
    assert b == a + (b - a);
    if a < b {
      assert b - a != {};
    }
  }
}
