/** Division with a fallback, and rounding up to a multiple. Doubles are taken as exact reals. */
module NumberUtils {

  function SafeDivide(a: nat, b: nat, fallback: real := 0.0): (r: real)
    ensures b > 0 ==> r * b as real == a as real
    ensures b == 0 ==> r == fallback
    ensures fallback >= 0.0 ==> r >= 0.0
  {
    if b > 0 then a as real / b as real else fallback
  }

  function Max(a: nat, b: nat): nat { if a < b then b else a }

  /** The least multiple that is not below the input. */
  function CeilToMultiple(input: nat, multiple: nat): (r: nat)
    requires multiple > 0
    ensures r % multiple == 0 && input <= r < input + multiple
  {
    var rem := input % multiple;
    if rem == 0 then input
    else
      RoundUp(input, multiple);
      input + (multiple - rem)
  }

  lemma RoundUp(input: nat, multiple: nat)
    requires multiple > 0
    ensures (input + (multiple - input % multiple)) % multiple == 0
  {
    var q := input / multiple;
    assert input + (multiple - input % multiple) == multiple * (q + 1);
    Quotient(q + 1, 0, multiple);
  }

  lemma MulOrder(x: nat, y: nat, d: nat)
    ensures x <= y ==> d * x <= d * y
  {
  }

  lemma DivisionBound(total: nat, n: nat)
    requires n > 0
    ensures n * (total / n) <= total < n * (total / n) + n
  {
  }

  lemma Spread(n: nat, a: nat, b: nat)
    ensures n * (a + b) == n * a + n * b
  {
  }

  // Quotient and remainder are unique.
  lemma Quotient(q: nat, r: nat, d: nat)
    requires r < d
    ensures (d * q + r) / d == q && (d * q + r) % d == r
  {
    var n := d * q + r;
    assert n == d * (n / d) + n % d;
    MulOrder(q + 1, n / d, d);
    MulOrder(n / d + 1, q, d);
  }

  /** No smaller multiple reaches the input, so a larger input is never rounded to less. */
  lemma CeilIsMonotone(a: nat, b: nat, multiple: nat)
    requires multiple > 0 && a <= b
    ensures CeilToMultiple(a, multiple) <= CeilToMultiple(b, multiple)
  {
    LeastMultiple(a, multiple, CeilToMultiple(b, multiple));
  }

  lemma LeastMultiple(input: nat, multiple: nat, other: nat)
    requires multiple > 0 && other % multiple == 0 && input <= other
    ensures CeilToMultiple(input, multiple) <= other
  {
    var r := CeilToMultiple(input, multiple);
    var a, b := other / multiple, r / multiple;
    assert other == multiple * a && r == multiple * b;
    MulOrder(a + 1, b, multiple);
    MulOrder(b, a, multiple);
  }
}
