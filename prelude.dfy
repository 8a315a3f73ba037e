/** Shared vocabulary: Go strings as byte sequences, optional values and
    error-carrying results. */
module Prelude {

  /** One byte of a Go string or []byte. */
  newtype byte = b: int | 0 <= b < 0x100

  /** A Go string: an immutable sequence of bytes, not necessarily UTF-8. */
  type Bytes = seq<byte>

  const Slash: byte := 0x2F
  const Backslash: byte := 0x5C
  const Underscore: byte := 0x5F
  const Dot: byte := 0x2E
  const Newline: byte := 0x0A
  const Space: byte := 0x20

  /** The bytes of a string literal written in ASCII (each character's
      code, modulo 256). */
  function Ascii(s: string): (b: Bytes)
    ensures |b| == |s|
    ensures forall k :: 0 <= k < |b| ==> b[k] as int == s[k] as int % 0x100
  {
    seq(|s|, k requires 0 <= k < |s| => (s[k] as int % 0x100) as byte)
  }

  datatype Option<+T> = None | Some(value: T)

  /** The errors of the pipeline. `Cause` is an error produced by a port
      (remote call, decoder, file system); the others are the errors the
      core itself builds. */
  datatype Error =
    | Cause(message: Bytes)
    | PostMissing(cause: Error, atUri: Bytes)
    | NoSuchPost(atUri: Bytes)
    | MarshalFailed(cause: Error, atUri: Bytes)
    | UnmarshalFailed(cause: Error, atUri: Bytes)
    | MissingSubject(path: Bytes)

  datatype Result<+T> = Success(value: T) | Failure(error: Error)
}
