/** Facts about Euclidean division on naturals that the proofs share. */
module Arithmetic {

  /** Byte `i` lies in row `row` at column `i - row * stride`. */
  lemma RowColumn(i: nat, row: nat, stride: nat)
    requires stride > 0 && row * stride <= i < row * stride + stride
    ensures i / stride == row && i % stride == i - row * stride
  {
    var q, m := i / stride, i % stride;
    assert i == q * stride + m;
    assert (q - row) * stride == (i - row * stride) - m;
    ZeroMultiple(q - row, stride);
  }

  /** A multiple of `s` strictly between `-s` and `s` is zero. */
  lemma ZeroMultiple(d: int, s: int)
    requires s > 0 && -s < d * s < s
    ensures d == 0
  {
  }

  lemma ModAddLeft(a: nat, b: nat, h: nat)
    requires h > 0
    ensures (a % h + b) % h == (a + b) % h
  {
    var q, y := a / h, a % h + b;
    var k, m := y / h, y % h;
    assert a == q * h + a % h;
    assert y == k * h + m;
    assert (q + k) * h == q * h + k * h;
    RowColumn(a + b, q + k, h);
  }

  lemma DivMonotone(a: nat, b: nat, d: nat)
    requires a <= b && d > 0
    ensures a / d <= b / d
  {
    var qa, qb := a / d, b / d;
    assert a == qa * d + a % d;
    assert b == qb * d + b % d;
    assert (qa - qb) * d == (a - b) - a % d + b % d;
    BelowOneMultiple(qa - qb, d);
  }

  /** A multiple of `s` below `s` has a factor of at most zero. */
  lemma BelowOneMultiple(e: int, s: int)
    requires s > 0 && e * s < s
    ensures e <= 0
  {
  }

  /** Dividing an exact multiple gives the factor back. */
  lemma DivExact(x: nat, q: nat, d: nat)
    requires d > 0 && x == q * d
    ensures x / d == q
  {
    RowColumn(x, q, d);
  }

  /** Stepping by `s` modulo `h`, then by `m` more copies of `s`, is stepping
      by `m + 1` copies at once. */
  lemma ModStep(a: nat, s: nat, h: nat, m: nat)
    requires h > 0
    ensures ((a + s) % h + m * s) % h == (a + (m + 1) * s) % h
  {
    ModAddLeft(a + s, m * s, h);
    assert (m + 1) * s == m * s + s;
  }
}
