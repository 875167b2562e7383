/** Small value types shared by every module of the model: Rust's `Option`,
    the outcome of an operation that may abort the process (`unwrap`, `expect`,
    integer overflow), and the fixed-width integers the source uses. */
module Wrappers {

  datatype Option<+T> = None | Some(value: T)

  /** `Fail(message)` stands for a Rust panic: the system aborts the app with
      that message and nothing after the failing call happens. */
  datatype Outcome = Pass | Fail(message: string)

  /** The outcome of an operation that yields a value or panics. */
  datatype Result<+T> = Ok(value: T) | Err(message: string)

  /** Rust's `u16`. */
  newtype u16 = x: int | 0 <= x < 0x1_0000

  const U16_MAX: int := 0xFFFF

  /** Rust's checked `+= 1` on a `u16` (a debug build panics on overflow). */
  function IncrementU16(x: u16): (r: Result<u16>)
    ensures r.Ok? <==> x as int < U16_MAX
    ensures r.Ok? ==> r.value as int == x as int + 1
  {
    if x as int < U16_MAX then Ok(x + 1) else Err("attempt to add with overflow")
  }

  /** Rust's `u32 -> u16` `try_into().unwrap()`: values above 65535 panic. */
  function ToU16(x: nat): (r: Result<u16>)
    ensures r.Ok? <==> x <= U16_MAX
    ensures r.Ok? ==> r.value as int == x
  {
    if x <= U16_MAX then Ok(x as u16) else Err("called `Result::unwrap()` on an `Err` value: TryFromIntError(())")
  }
}
