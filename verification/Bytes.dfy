/** Value types shared by every component. */
module Bytes {

  /** One octet. Shifts and masks of the original become division and remainder. */
  type byte = b: int | 0 <= b < 256

  datatype Option<+T> = None | Some(value: T)

  datatype Result<+T, +E> = Ok(value: T) | Err(error: E)

  function Min(a: int, b: int): int { if a <= b then a else b }

  function Max(a: int, b: int): int { if a <= b then b else a }

  /** Multiplying by a natural number keeps an order. */
  lemma TimesMonotone(p: nat, a: int, b: int)
    ensures a <= b ==> p * a <= p * b && a * p <= b * p
  {
  }

  /** Concatenation of a list of pieces, such as the chunks of a stream. */
  function Flatten<T>(pieces: seq<seq<T>>): seq<T> {
    if pieces == [] then [] else pieces[0] + Flatten(pieces[1..])
  }

  lemma {:induction false} FlattenAppend<T>(a: seq<seq<T>>, b: seq<seq<T>>)
    ensures Flatten(a + b) == Flatten(a) + Flatten(b)
  {
    if a == [] {
      assert a + b == b;
    } else {
      assert (a + b)[1..] == a[1..] + b;
      FlattenAppend(a[1..], b);
    }
  }
}
