/** Small shared vocabulary: bytes, failure-compatible wrappers and the
    integer facts the other modules lean on. */
module Common {

  /** An unsigned 8-bit value, as Go's `byte`. */
  type byte = b: int | 0 <= b < 256

  /** An unsigned 16-bit value, as Go's `uint16`. */
  type uint16 = x: int | 0 <= x < 0x1_0000

  /** Go's `byte(v)` conversion keeps the low eight bits of a two's-complement
      integer; Dafny's Euclidean `%` gives the same residue for negative `v`. */
  function ToByte(v: int): (r: byte)
    ensures (r - v) % 256 == 0
  {
    v % 256
  }

  datatype Option<+T> = None | Some(value: T)

  datatype Result<+T, +E> = Success(value: T) | Failure(error: E)

  datatype Outcome<+E> = Pass | Fail(error: E)

  function Min(a: int, b: int): (r: int)
    ensures r <= a && r <= b && (r == a || r == b)
  {
    if a <= b then a else b
  }

  function Max(a: int, b: int): (r: int)
    ensures r >= a && r >= b && (r == a || r == b)
  {
    if a >= b then a else b
  }

  function Abs(x: int): (r: nat)
    ensures r == x || r == -x
  {
    if x >= 0 then x else -x
  }

  /** Quotient and remainder (Euclidean, as Dafny's `/` and `%`) are
      determined by any decomposition `x == q * m + d` with `0 <= d < |m|`. */
  lemma DivModUnique(x: int, m: int, q: int, d: int)
    requires m != 0 && 0 <= d < Abs(m) && x == q * m + d
    ensures x / m == q && x % m == d
  {
    var q', d' := x / m, x % m;
    assert x == q' * m + d';
    assert (q - q') * m == d' - d;
    if q > q' {
      MulAtLeast(q - q', Abs(m));
    } else if q < q' {
      MulAtLeast(q' - q, Abs(m));
    }
  }

  /** A positive multiple of a non-negative number is at least that number. */
  lemma MulAtLeast(a: int, m: int)
    requires a >= 1 && m >= 0
    ensures a * m >= m
  {
    assert a * m == (a - 1) * m + m;
    assert (a - 1) * m >= 0;
  }

  /** Multiplying by a non-negative factor keeps an order. */
  lemma MulMonotone(a: int, b: int, m: int)
    requires a <= b && m >= 0
    ensures a * m <= b * m
  {
    assert b * m - a * m == (b - a) * m;
    assert (b - a) * m >= 0;
  }
}
