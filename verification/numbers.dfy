/** Exact arithmetic standing in for the JavaScript `Math` helpers the windowing
    code uses (`Math.floor`, `Math.ceil`, `Math.max`). JS numbers are abstracted
    as Dafny `real`, which is exact rational arithmetic. */
module Numbers {

  function Max(a: int, b: int): (r: int)
    ensures r >= a && r >= b
    ensures r == a || r == b
  {
    if a >= b then a else b
  }

  function Min(a: int, b: int): (r: int)
    ensures r <= a && r <= b
    ensures r == a || r == b
  {
    if a <= b then a else b
  }

  /** `Math.floor(x / d)`: the unique integer k with k·d <= x < (k+1)·d. */
  function FloorDiv(x: real, d: real): (k: int)
    requires d > 0.0
    ensures k as real * d <= x < (k + 1) as real * d
  {
    var q := x / d;
    var k := q.Floor;
    assert k as real <= q < (k + 1) as real;
    assert q * d == x;
    MulLeft(k as real, q, d);
    MulStrict(q, (k + 1) as real, d);
    assert (k + 1) as real * d > x;
    k
  }

  /** `Math.ceil(x / d)`: the unique integer k with (k-1)·d < x <= k·d. */
  function CeilDiv(x: real, d: real): (k: int)
    requires d > 0.0
    ensures (k - 1) as real * d < x <= k as real * d
  {
    -FloorDiv(-x, d)
  }

  /** The floor quotient is characterised by its bracketing inequalities. */
  lemma FloorDivUnique(x: real, d: real, k: int)
    requires d > 0.0
    requires k as real * d <= x < (k + 1) as real * d
    ensures FloorDiv(x, d) == k
  {
    var f := FloorDiv(x, d);
    BracketOrder(f, k, x, x, d);
    BracketOrder(k, f, x, x, d);
  }

  /** The ceiling quotient is characterised by its bracketing inequalities. */
  lemma CeilDivUnique(x: real, d: real, k: int)
    requires d > 0.0
    requires (k - 1) as real * d < x <= k as real * d
    ensures CeilDiv(x, d) == k
  {
    FloorDivUnique(-x, d, -k);
  }

  /** `Math.floor(x / d)` never decreases as x grows. */
  lemma FloorDivMonotone(x: real, y: real, d: real)
    requires d > 0.0
    requires x <= y
    ensures FloorDiv(x, d) <= FloorDiv(y, d)
  {
    var a := FloorDiv(x, d);
    var b := FloorDiv(y, d);
    BracketOrder(a, b, x, y, d);
  }

  /** A non-negative numerator gives a non-negative floor quotient. */
  lemma FloorDivNonNegative(x: real, d: real)
    requires d > 0.0
    requires x >= 0.0
    ensures FloorDiv(x, d) >= 0
  {
    BracketOrder(0, FloorDiv(x, d), 0.0, x, d);
  }

  /** A non-negative numerator gives a non-negative ceiling quotient. */
  lemma CeilDivNonNegative(x: real, d: real)
    requires d > 0.0
    requires x >= 0.0
    ensures CeilDiv(x, d) >= 0
  {
    FloorDivUnique(0.0, d, 0);
    FloorDivMonotone(-x, 0.0, d);
  }

  lemma MulLeft(a: real, b: real, d: real)
    requires d > 0.0
    requires a <= b
    ensures a * d <= b * d
  {
    assert (b - a) * d >= 0.0;
  }

  /** Floor brackets of ordered numerators are ordered. */
  lemma BracketOrder(a: int, b: int, x: real, y: real, d: real)
    requires d > 0.0
    requires a as real * d <= x <= y < (b + 1) as real * d
    ensures a <= b
  {
    MulCancelStrict(a as real, (b + 1) as real, d);
  }

  /** Dividing both sides of `a * d <= b * d` by a positive `d`. */
  lemma MulCancel(a: real, b: real, d: real)
    requires d > 0.0
    requires a * d <= b * d
    ensures a <= b
  {
    assert (b - a) * d >= 0.0;
  }

  lemma MulCancelStrict(a: real, b: real, d: real)
    requires d > 0.0
    requires a * d < b * d
    ensures a < b
  {
    assert (b - a) * d > 0.0;
  }

  lemma MulStrict(a: real, b: real, d: real)
    requires d > 0.0
    requires a < b
    ensures a * d < b * d
  {
    assert (b - a) * d > 0.0;
  }
}
