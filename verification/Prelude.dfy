/** Types shared by every component. */
module Prelude {

  datatype Option<+T> = None | Some(value: T)

  datatype Result<+T, +E> = Ok(value: T) | Err(error: E)

  /** What the policy asks for, from the most permissive to the most restrictive. */
  datatype Verdict = Allow | Warn | ApprovalRequired | Block

  type Byte = x: int | 0 <= x < 256

  type Bytes = seq<Byte>
}
