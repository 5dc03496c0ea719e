/** Small definitions shared by the modules of the model. */
module Shared {

  /** A Go `byte`. */
  newtype byte = x: int | 0 <= x < 256

  /** A value that may be absent, in place of Go's nil pointers and nil errors. */
  datatype Option<T> = None | Some(value: T)

  /** Go's `time.Second`, in nanoseconds. */
  const Second: int := 1_000_000_000

  function Min(a: int, b: int): int
  {
    if a <= b then a else b
  }

  /** The index of the first occurrence of `x` in `s`, or -1 when there is none:
      Go's `bytes.IndexByte` and, for a one-character needle, `strings.Index`. */
  function IndexOf<T(==)>(s: seq<T>, x: T): (i: int)
    ensures -1 <= i < |s|
    ensures i == -1 <==> x !in s
    ensures 0 <= i ==> s[i] == x && x !in s[..i]
  {
    if |s| == 0 then -1
    else if s[0] == x then 0
    else
      var j := IndexOf(s[1..], x);
      if j < 0 then -1 else j + 1
  }

  /** In `a`, then `x`, then `b`, with no `x` in `a`, the first `x` is the one
      after `a`. */
  lemma IndexOfJoin<T>(a: seq<T>, x: T, b: seq<T>)
    requires x !in a
    ensures IndexOf(a + [x] + b, x) == |a|
  {
    var s := a + [x] + b;
    assert s[|a|] == x;
    var i := IndexOf(s, x);
  }
}
