/** Small definitions shared by every module. */
module Prelude {

  datatype Option<+T> = None | Some(value: T)

  const TWO_64: int := 0x1_0000_0000_0000_0000

  /** Go's `uint64`; arithmetic on it wraps. */
  type uint64 = x: int | 0 <= x < TWO_64

  function Add64(a: int, b: int): uint64 {
    (a + b) % TWO_64
  }

  lemma Assoc<T>(a: seq<T>, b: seq<T>, c: seq<T>)
    ensures a + b + c == a + (b + c)
  {
  }

  lemma Tail<T>(t: T, rest: seq<T>)
    ensures ([t] + rest)[0] == t && ([t] + rest)[1..] == rest
  {
  }

  lemma RightCancel<T>(a: seq<T>, b: seq<T>, c: seq<T>)
    requires a + c == b + c
    ensures a == b
  {
    assert (a + c)[..|a|] == a && (b + c)[..|b|] == b;
  }
}
