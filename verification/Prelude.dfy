/** Types shared by every module of the model. */
module Prelude {

  /** A value that may be absent: Python's `None`. */
  datatype Option<+T> = None | Some(value: T)

  /** The outcome of an operation that either returns or raises. */
  datatype Result<+T, +E> = Ok(value: T) | Err(error: E)

  /** One octet. */
  type Byte = x: int | 0 <= x < 256

  /** The fractional part is dropped, as Python's `int(x)` does. */
  function Truncate(x: real): (n: int)
    ensures x >= 0.0 ==> n as real <= x < n as real + 1.0
    ensures x < 0.0 ==> n as real - 1.0 < x <= n as real <= 0.0
  {
    if x >= 0.0 then x.Floor else -((-x).Floor)
  }

  lemma Assoc<T>(a: seq<T>, b: seq<T>, c: seq<T>)
    ensures a + (b + c) == a + b + c
  {
  }

  /** An empty part may change places with its neighbour. */
  lemma EmptyCommutes<T>(a: seq<T>, b: seq<T>, c: seq<T>)
    requires a == [] || b == []
    ensures a + (b + c) == b + (a + c)
  {
    if a == [] {
      assert a + c == c;
    } else {
      assert b + c == c;
    }
  }

  function Max(x: real, y: real): (m: real)
    ensures m >= x && m >= y && (m == x || m == y)
  {
    if y > x then y else x
  }

  function Min(x: real, y: real): (m: real)
    ensures m <= x && m <= y && (m == x || m == y)
  {
    if y < x then y else x
  }

  /** Kept within 0..100, as a percentage is. */
  function Clamp(x: real): (c: real)
    ensures 0.0 <= c <= 100.0 && (0.0 <= x <= 100.0 ==> c == x)
    ensures (x < 0.0 ==> c == 0.0) && (x > 100.0 ==> c == 100.0)
  {
    Max(0.0, Min(100.0, x))
  }

  /** Half-even rounding to an integer, as Python's `round`. */
  function RoundHalfEven(x: real): (n: int)
    ensures n as real - 0.5 <= x <= n as real + 0.5
    ensures x - n as real in {-0.5, 0.5} ==> n % 2 == 0
  {
    var f := x.Floor;
    var d := x - f as real;
    if d < 0.5 || (d == 0.5 && f % 2 == 0) then f else f + 1
  }

  /** `round(x, 1)`. */
  function Round1(x: real): (r: real)
    ensures x - 0.05 <= r <= x + 0.05 && (x >= 0.0 ==> r >= 0.0)
  {
    RoundHalfEven(x * 10.0) as real / 10.0
  }

  /** No more than one decimal. */
  predicate OneDecimal(x: real) {
    var tenths := x * 10.0;
    tenths.Floor as real == tenths
  }

  lemma Round1IsOneDecimal(x: real)
    ensures OneDecimal(Round1(x))
  {
    var n := RoundHalfEven(x * 10.0);
    assert Round1(x) * 10.0 == n as real;
  }
}
