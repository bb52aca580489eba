/** Option and Result values, and the wrap-around of Go's int64. */
module Basics {
  datatype Option<+T> = None | Some(value: T)

  datatype Result<+T, +E> = Ok(value: T) | Err(error: E)

  const TWO_53: int := 0x20_0000_0000_0000
  const TWO_63: int := 0x8000_0000_0000_0000
  const TWO_64: int := 0x1_0000_0000_0000_0000

  predicate IsInt64(x: int) {
    -TWO_63 <= x < TWO_63
  }

  type Int64 = x: int | IsInt64(x)

  /** The int64 that Go's arithmetic leaves when the exact result is x. */
  function Wrap64(x: int): (r: int)
    ensures IsInt64(r) && Congruent64(r, x)
    ensures r == x <==> IsInt64(x)
  {
    var r := (x + TWO_63) % TWO_64 - TWO_63;
    assert r == x + (-((x + TWO_63) / TWO_64)) * TWO_64;
    r
  }

  ghost predicate Congruent64(a: int, b: int) {
    exists k: int :: a == b + k * TWO_64
  }

  lemma CongruentSum(a: int, b: int, c: int, d: int)
    requires Congruent64(a, b) && Congruent64(c, d)
    ensures Congruent64(a + c, b + d)
  {
    var j: int :| a == b + j * TWO_64;
    var k: int :| c == d + k * TWO_64;
    assert a + c == b + d + (j + k) * TWO_64;
  }

  lemma CongruentScale(a: int, b: int, n: int)
    requires Congruent64(a, b)
    ensures Congruent64(a * n, b * n)
  {
    var k: int :| a == b + k * TWO_64;
    assert a * n == b * n + (k * n) * TWO_64 by {
      assert (b + k * TWO_64) * n == b * n + (k * TWO_64) * n;
      assert (k * TWO_64) * n == (k * n) * TWO_64;
    }
  }

  lemma CongruentTrans(a: int, b: int, c: int)
    requires Congruent64(a, b) && Congruent64(b, c)
    ensures Congruent64(a, c)
  {
    var j: int :| a == b + j * TWO_64;
    var k: int :| b == c + k * TWO_64;
    assert a == c + (j + k) * TWO_64;
  }

  function Abs(x: int): nat {
    if x < 0 then -x else x
  }

  function Min(a: int, b: int): int {
    if a < b then a else b
  }

  /** Multiplying an inequality by a non-negative factor. */
  lemma MulMono(a: int, b: int, c: int)
    requires a <= b && 0 <= c
    ensures a * c <= b * c
  {
  }

  lemma MulLess(a: int, b: int, c: int)
    requires a * c < b * c && 0 <= c
    ensures a < b
  {
    if b <= a {
      MulMono(b, a, c);
    }
  }

  lemma MulAssoc(a: int, b: int, c: int)
    ensures (a * b) * c == a * (b * c)
  {
  }

  lemma MulDistributes(a: int, b: int, c: int)
    ensures (a + b) * c == a * c + b * c
  {
  }
}
