/** Small shared vocabulary: optional values, results, bytes. */
module Prelude {

  datatype Option<+T> = None | Some(value: T)

  /** The result of a fallible operation, as Rust's `Result<T, E>`. */
  datatype Result<+T, +E> = Ok(value: T) | Err(error: E)

  newtype byte = b: int | 0 <= b < 0x100

  type Bytes = seq<byte>

  /** The bytes of a sequence of chunks laid end to end. */
  function Concat(chunks: seq<Bytes>): Bytes
  {
    if chunks == [] then [] else Concat(chunks[..|chunks| - 1]) + chunks[|chunks| - 1]
  }

  lemma {:induction false} ConcatPrepend(c: Bytes, rest: seq<Bytes>)
    ensures Concat([c] + rest) == c + Concat(rest)
  {
    if rest != [] {
      var all := [c] + rest;
      assert all[..|all| - 1] == [c] + rest[..|rest| - 1];
      ConcatPrepend(c, rest[..|rest| - 1]);
    }
  }

  /** Taking fewer chunks yields a prefix of the bytes. */
  lemma {:induction false} ConcatOfPrefix(chunks: seq<Bytes>, n: nat)
    requires n <= |chunks|
    ensures |Concat(chunks[..n])| <= |Concat(chunks)|
    ensures Concat(chunks[..n]) == Concat(chunks)[..|Concat(chunks[..n])|]
  {
    if n < |chunks| {
      var init := chunks[..|chunks| - 1];
      assert init[..n] == chunks[..n];
      ConcatOfPrefix(init, n);
    } else {
      assert chunks[..n] == chunks;
    }
  }
}
