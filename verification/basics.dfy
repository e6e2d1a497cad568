/** Small datatypes and helpers shared by the model. */
module Basics {

  /** An optional value: `None` plays the part of Python's `None`. */
  datatype Option<+T> = None | Some(value: T)

  /** A value or the error that stopped its computation. */
  datatype Result<+T, +E> = Ok(value: T) | Err(error: E)

  /** Absolute value of a real number. */
  function Abs(x: real): (r: real)
    ensures r >= 0.0
    ensures r == x || r == -x
  {
    if x < 0.0 then -x else x
  }

  /** The number of true entries of a boolean sequence (numpy's `sum`). */
  function CountTrue(bs: seq<bool>): (n: nat)
    ensures n <= |bs|
    decreases |bs|
  {
    if |bs| == 0 then 0
    else
      assert bs == [bs[0]] + bs[1..];
      (if bs[0] then 1 else 0) + CountTrue(bs[1..])
  }

  /** Counting distributes over concatenation. */
  lemma {:induction false} CountTrueAppend(a: seq<bool>, b: seq<bool>)
    ensures CountTrue(a + b) == CountTrue(a) + CountTrue(b)
    decreases |a|
  {
    if |a| == 0 {
      assert a + b == b;
    } else {
      assert (a + b)[1..] == a[1..] + b;
      CountTrueAppend(a[1..], b);
    }
  }
}
