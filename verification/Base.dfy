/** Vocabulary shared by every model in this project. */
module Base {

  datatype Option<+T> = None | Some(value: T)

  /** A collision-free hash: the digest of a payload is the payload under a
      constructor, so two digests are equal exactly when the payloads are. */
  datatype Digest<+T> = Sha256(preimage: T)
}
