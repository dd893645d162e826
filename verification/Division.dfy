/** Products, quotients and remainders of unknown numbers, one small step at a time. */
module Division {
  lemma MulAtLeast(x: int, b: nat)
    requires x >= 1
    ensures x * b >= b
  {
  }

  lemma MulMonotone(a: nat, b: nat, c: nat)
    requires a <= b
    ensures a * c <= b * c
  {
    assert b * c - a * c == (b - a) * c;
  }

  lemma OneMore(n: nat, c: nat)
    ensures (n + 1) * c == n * c + c
  {
  }

  /** Quotient and remainder are the only such pair. */
  lemma DivIs(a: nat, b: nat, q: nat, m: nat)
    requires b > 0 && m < b && a == q * b + m
    ensures a / b == q && a % b == m
  {
    var q2, m2 := a / b, a % b;
    assert (q - q2) * b == m2 - m;
    if q - q2 >= 1 {
      MulAtLeast(q - q2, b);
    } else if q2 - q >= 1 {
      MulAtLeast(q2 - q, b);
    }
  }

  lemma DivMod(i: nat, b: nat)
    requires b > 0
    ensures i / b * b + i % b == i && i / b >= 0 && 0 <= i % b < b
  {
  }

  lemma DivShift(k: nat, each: nat)
    requires each > 0
    ensures (k + each) / each == k / each + 1 && (k + each) % each == k % each
  {
    var q, m := k / each, k % each;
    assert k + each == (q + 1) * each + m;
    DivIs(k + each, each, q + 1, m);
  }

  lemma DivSmall(k: nat, each: nat)
    requires k < each
    ensures k / each == 0 && k % each == k
  {
    DivIs(k, each, 0, k);
  }

  lemma DivLess(k: nat, each: nat, p: nat)
    requires each > 0 && k / each < p
    ensures k < p * each
  {
    var q := k / each;
    assert k == q * each + k % each;
    MulMonotone(q + 1, p, each);
    OneMore(q, each);
  }

  /** Rounding up covers every index. */
  lemma DivBound(i: nat, size: nat, b: nat)
    requires b > 0 && i < size
    ensures i / b < (size + b - 1) / b
  {
    var q := i / b;
    var top := (size + b - 1) / b;
    assert size + b - 1 == top * b + (size + b - 1) % b;
    if top <= q {
      MulMonotone(top, q, b);
    }
  }
}
