/** Types and arithmetic shared by every part of the model. */
module Prelude {

  datatype Option<+T> = None | Some(value: T)

  datatype Result<+T, +E> = Ok(value: T) | Err(error: E)

  /** The ADBC status codes that the modelled code constructs itself. */
  datatype Status = Internal | InvalidState | InvalidData | InvalidArguments | Timeout | NotFound | Unauthorized | IO | Unknown

  /** `numbers` are the figures that the message text quotes. */
  datatype AdbcError = AdbcError(status: Status, message: string, numbers: seq<nat> := [])

  /** An Arrow record batch: only its identity and its rows matter here. */
  datatype Batch = Batch(rows: seq<int>)

  type Byte = x: int | 0 <= x < 256

  /** Largest `usize` of the 64-bit targets the server is built for. */
  const USIZE_MAX: nat := 0xFFFF_FFFF_FFFF_FFFF

  /** Protocol-wide bound on one control message (256 MiB). */
  const MAX_CONTROL_BYTES: nat := 256 * 1024 * 1024

  function Min(a: int, b: int): int {
    if a <= b then a else b
  }

  function Max(a: int, b: int): int {
    if a <= b then b else a
  }

  function SaturatingAdd(a: nat, b: nat): nat {
    Min(a + b, USIZE_MAX)
  }

  function SaturatingSub(a: nat, b: nat): nat {
    if a <= b then 0 else a - b
  }

  lemma Subset<T>(a: set<T>, b: set<T>)
    requires a <= b
    ensures |a| <= |b|
  {
    assert b == a + (b - a);
  }

  lemma Associative<T>(a: seq<T>, b: seq<T>, c: seq<T>)
    ensures a + b + c == a + (b + c)
  {
  }
}
