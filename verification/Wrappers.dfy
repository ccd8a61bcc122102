/** Small shared datatypes. */
module Wrappers {

  datatype Option<+T> = None | Some(value: T)

  /** SHA-256 as an injective function of its input. */
  datatype Digest<+T> = Sha256(preimage: T)
}
