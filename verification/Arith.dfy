/** Division facts the layouts rest on, for a divisor that is not a literal. */
module Arith {

  lemma {:induction false} MulMono(d: nat, a: nat, b: nat)
    requires a <= b
    ensures d * a <= d * b
  {
  }

  /** Quotient and remainder are unique. */
  lemma {:induction false} DivUnique(x: nat, q: nat, r: nat, d: nat)
    requires r < d && x == d * q + r
    ensures x / d == q && x % d == r
  {
    var q' := x / d;
    assert x == d * q' + x % d;
    assert d * (q' + 1) == d * q' + d && d * (q + 1) == d * q + d;
    if q' < q {
      MulMono(d, q' + 1, q);
    } else if q < q' {
      MulMono(d, q + 1, q');
    }
  }

  lemma {:induction false} DivMono(a: nat, b: nat, d: nat)
    requires d > 0 && a <= b
    ensures 0 <= a / d <= b / d
  {
    var p, q := a / d, b / d;
    assert a == d * p + a % d && b == d * q + b % d;
    assert d * (q + 1) == d * q + d;
    if q < p {
      MulMono(d, q + 1, p);
    }
  }

  lemma {:induction false} DivNext(b: nat, d: nat)
    requires d > 0
    ensures (b + d) / d == b / d + 1
  {
    var q := b / d;
    assert b == d * q + b % d;
    assert d * (q + 1) == d * q + d;
    DivUnique(b + d, q + 1, b % d, d);
  }

  lemma {:induction false} ModShift(x: nat, r: nat, d: nat)
    requires d > 0 && x % d == 0 && r < d
    ensures (x + r) % d == r && (x + r) / d == x / d
    ensures (x + d) % d == 0 && (x + d) / d == x / d + 1
  {
    assert x == d * (x / d);
    DivUnique(x + r, x / d, r, d);
    assert d * (x / d + 1) == d * (x / d) + d;
    DivUnique(x + d, x / d + 1, 0, d);
  }
}
