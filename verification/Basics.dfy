/** Types shared by the models of the individual components. */
module Basics {

  datatype Option<+T> = None | Some(value: T)

  datatype Result<+T, +E> = Ok(value: T) | Err(error: E)

  /** The compatibility backend chosen from the peer's identification. */
  datatype Platform = Posix | Routeros

  type Byte = b: int | 0 <= b < 256

  function Min(a: nat, b: nat): nat {
    if a <= b then a else b
  }

  /** Moving the first remaining element over to the finished ones. */
  lemma MoveOne<T>(done: seq<T>, rest: seq<T>, n: nat)
    requires 0 < n <= |rest|
    ensures done + rest[..n] == (done + [rest[0]]) + rest[1..][..n - 1]
  {
    assert rest[..n] == [rest[0]] + rest[1..][..n - 1];
  }
}
