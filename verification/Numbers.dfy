/** Shared value types and the arithmetic that Python's built-ins perform. */
module Numbers {
  datatype Option<+T> = None | Some(value: T)

  /** A value taken from outside the program: `Unreadable` stands for anything that is
      missing, cannot be converted to a number, or converts to a number that is not finite. */
  datatype Reading<+T> = Unreadable | Readable(value: T)

  /** What a storage write did: succeed, fail, or become durable without the caller learning of it. */
  datatype Write = Confirmed | Refused | Unconfirmed

  datatype Side = Buy | Sell

  function Max(a: real, b: real): real { if a >= b then a else b }

  function Min(a: real, b: real): real { if a <= b then a else b }

  function Abs(a: real): real { if a >= 0.0 then a else -a }

  function Ceiling(x: real): int { -((-x).Floor) }

  /** Python's `round` to an integer: nearest, ties to the even neighbour. */
  function RoundHalfEven(x: real): int
  {
    var low := x.Floor;
    var part := x - low as real;
    if part < 0.5 then low
    else if part > 0.5 then low + 1
    else if low % 2 == 0 then low
    else low + 1
  }

  lemma FloorMonotone(x: real, y: real)
    requires x <= y
    ensures x.Floor <= y.Floor
  {
  }

  /** Rounding keeps order, moves a value by at most a half, and leaves whole numbers alone. */
  lemma RoundHalfEvenBounds(x: real, y: real)
    requires x <= y
    ensures RoundHalfEven(x) <= RoundHalfEven(y)
    ensures RoundHalfEven(x) as real - 0.5 <= x <= RoundHalfEven(x) as real + 0.5
    ensures x == x.Floor as real ==> RoundHalfEven(x) as real == x
  {
    FloorMonotone(x, y);
  }

  lemma Multiples(d: int, n: nat)
    ensures d > 0 ==> d * n >= n
    ensures d < 0 ==> d * n <= -(n as int)
  {
  }

  /** Quotient and remainder are the only ones there are. */
  lemma DivModUnique(x: int, n: nat, q: int, r: int)
    requires n > 0 && x == q * n + r && 0 <= r < n
    ensures x / n == q && x % n == r
  {
    var d := x / n - q;
    assert x == x / n * n + x % n;
    assert d * n == r - x % n;
    Multiples(d, n);
  }

  lemma DivideOrder(a: int, b: int, n: nat)
    requires n > 0 && a <= b
    ensures a / n <= b / n
  {
    var d := a / n - b / n;
    assert a == a / n * n + a % n && b == b / n * n + b % n;
    assert d * n == a / n * n - b / n * n;
    Multiples(d, n);
  }
}
