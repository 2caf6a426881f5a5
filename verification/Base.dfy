/** Vocabulary shared by every component: optional values, results, bytes and digests. */
module Base {

  datatype Option<+T> = None | Some(value: T)

  datatype Result<+T, +E> = Ok(value: T) | Err(error: E)

  /** JavaScript's Number.MAX_SAFE_INTEGER: counters beyond it are refused. */
  const MAX_SAFE_INTEGER: nat := 9007199254740991

  type Byte = b: int | 0 <= b < 256

  type Bytes = seq<Byte>

  const LF: Byte := 10
  const CR: Byte := 13

  /** A SHA-256 digest, idealised as injective: it stands for exactly the text that was hashed. */
  datatype Digest = Sha256(preimage: Bytes)

  function Max(a: int, b: int): (m: int)
  {
    if a < b then b else a
  }

  function Min(a: int, b: int): (m: int)
  {
    if a < b then a else b
  }
}
