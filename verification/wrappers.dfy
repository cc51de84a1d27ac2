/** Failure-compatible wrappers shared by every decoding step of the block scanner.

    `Error` collects the failure kinds the scanner can surface: the two hex
    decoding faults, a read past the end of the block buffer, and an opaque
    failure reported by a collaborator (the transaction decoder or the
    caller's continuation).
 */
module Wrappers {

  datatype Error =
    | OddLength
    | InvalidHexCharacter(c: char, index: nat)
    | UnexpectedEof
    | Other(message: string)

  datatype Option<+T> = None | Some(value: T)

  /** The outcome of a fallible step. */
  datatype Result<+T> = Ok(value: T) | Err(error: Error)
}
