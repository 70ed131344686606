/**
  Shared vocabulary of the Cargo OS PDS model.

  Instants are integers. Zero stands for Go's zero `time.Time`, the value `IsZero`
  recognises; converting an instant to UTC does not change it. Identifiers are naturals.
  Zero stands for `uuid.Nil`; the textual order of UUIDs is their numeric order, since
  the text is fixed-width lower-case hexadecimal.
 */
module Prelude {

  datatype Option<+T> = None | Some(value: T)

  datatype Result<+T, +E> = Ok(value: T) | Err(error: E)

  type Time = int

  type Id = nat

  /** The instant lies strictly before the limit; with no limit set, every instant does. */
  predicate Earlier(at: Time, limit: Option<Time>)
  {
    limit.None? || at < limit.value
  }

  /** Durations are signed 64-bit counts of nanoseconds. */
  const MAX_DURATION: int := 0x7FFF_FFFF_FFFF_FFFF

  /** `time.Time.Sub` saturates at the largest and smallest duration. */
  function Sub(a: Time, b: Time): int
  {
    if a - b > MAX_DURATION then MAX_DURATION else if a - b < -MAX_DURATION - 1 then -MAX_DURATION - 1 else a - b
  }
}
