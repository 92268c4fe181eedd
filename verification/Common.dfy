/** What several modules share: the source's `None` and its raised errors, bytes, and the assumption on hashes. */
module Common {
  datatype Option<+T> = None | Some(value: T)

  datatype Result<+T, +E> = Ok(value: T) | Err(error: E)

  newtype byte = b: int | 0 <= b < 256

  type Bytes = seq<byte>

  /** No two inputs have one image: what is assumed of a hash where a result needs it. */
  ghost predicate Injective<A(!new), B(!new)>(f: A -> B) {
    forall a, b {:trigger f(a), f(b)} :: f(a) == f(b) ==> a == b
  }
}
