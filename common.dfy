/** Value types shared by every part of the model: bytes, unsigned 16-bit
    integers, Option, and the outcomes of a non-blocking OS call and of a
    futures-0.1 poll. */
module Common {

  /** A Rust `u8`. */
  type byte = x: int | 0 <= x < 256

  /** A Rust `u16` (also `libc::c_ushort`). */
  type u16 = x: int | 0 <= x < 0x1_0000

  const U16_MAX: u16 := 0xFFFF

  datatype Option<+T> = None | Some(value: T)

  /** `std::io::ErrorKind`, reduced to the one distinction the core makes:
      would-block versus every other failure (an errno). */
  datatype ErrorKind = WouldBlock | Other(errno: int)

  /** `std::io::Result<T>` as an oracle reports it. */
  datatype IoResult<+T> = Ok(value: T) | Err(kind: ErrorKind)

  /** futures 0.1 `Poll<T, io::Error>`, that is `Result<Async<T>, io::Error>`. */
  datatype Poll<+T> = Ready(value: T) | NotReady | PollErr(kind: ErrorKind)

  /** A call that either returns or panics (`unwrap`, `expect`, `panic!`,
      an out-of-range index). */
  datatype Outcome<+T> = Returned(value: T) | Panicked

  function Min(a: int, b: int): int { if a <= b then a else b }
  function Max(a: int, b: int): int { if a <= b then b else a }
}
