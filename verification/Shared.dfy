/** What several modules use. */
module Shared {
  type Byte = b: int | 0 <= b < 256
  type Duration = x: int | x > 0 witness 1

  datatype Option<T> = None | Some(value: T)

  function Min(a: int, b: int): int { if a < b then a else b }

  function Max(a: int, b: int): int { if a > b then a else b }

  /** Math.max(1, Math.ceil(ms / 1000)), the seconds that a refused caller is told to wait. */
  function RetryAfter(ms: int): int {
    var sec := -((-ms) / 1000);
    if sec < 1 then 1 else sec
  }

  lemma Assoc<T>(a: seq<T>, b: seq<T>, c: seq<T>)
    ensures a + b + c == a + (b + c)
  {
  }
}
