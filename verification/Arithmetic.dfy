/** Divisibility. */
module Arithmetic {

  predicate Divides(d: nat, k: nat) {
    d > 0 && k % d == 0
  }

  lemma {:induction false} Grows(d: nat, a: nat, b: nat)
    ensures a < b ==> d * a + d <= d * b
  {
    if a < b {
      assert d * b == d * (a + 1) + d * (b - a - 1) == d * a + d + d * (b - a - 1);
    }
  }

  lemma {:induction false} Multiple(d: nat, m: nat)
    requires d > 0
    ensures Divides(d, d * m) && d * m / d == m
  {
    var q := d * m / d;
    assert d * m == d * q + d * m % d;
    Grows(d, m, q);
    Grows(d, q, m);
  }

  lemma {:induction false} Quotient(d: nat, k: nat)
    requires Divides(d, k)
    ensures k == d * (k / d)
  {
  }

  lemma {:induction false} DividesTrans(a: nat, b: nat, c: nat)
    requires Divides(a, b) && Divides(b, c)
    ensures Divides(a, c)
  {
    hide Divides;
    Quotient(a, b);
    DividesPositive(b, c);
    Quotient(b, c);
    var m, n := b / a, c / b;
    assert c == a * m * n == a * (m * n);
    Multiple(a, m * n);
  }

  lemma {:induction false} DividesPositive(a: nat, b: nat)
    requires Divides(a, b)
    ensures a > 0
  {
  }
}
