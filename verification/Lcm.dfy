/** Assgn1_1_17.sh: Euclid's algorithm, and a fold that ends with the least common multiple. */
module Lcm {
  import opened Arithmetic

  function Gcd(a: nat, b: nat): (g: nat)
    requires a > 0 && b > 0
    ensures g > 0
    decreases b
  {
    if a % b == 0 then b else Gcd(b, a % b)
  }

  /** Euclid's algorithm ends with a combination of its arguments. */
  lemma {:induction false} Bezout(a: nat, b: nat) returns (x: int, y: int)
    requires a > 0 && b > 0
    ensures Gcd(a, b) == a * x + b * y
    decreases b
  {
    if a % b == 0 {
      x, y := 0, 1;
    } else {
      var u, v := Bezout(b, a % b);
      var q := a / b;
      x, y := v, u - q * v;
      assert a % b == a - b * q;
      assert (a - b * q) * v == a * v - b * (q * v);
      assert b * (u - q * v) == b * u - b * (q * v);
    }
  }

  // A divisor of both numbers divides their positive combinations.
  lemma {:induction false} DividesCombination(d: nat, a: nat, b: nat, x: int, y: int)
    requires Divides(d, a) && Divides(d, b) && a * x + b * y > 0
    ensures Divides(d, a * x + b * y)
  {
    Quotient(d, a);
    Quotient(d, b);
    DividesPositive(d, a);
    hide Divides;
    var m, n := a / d, b / d;
    var k := m * x + n * y;
    assert d * m * x == d * (m * x) && d * n * y == d * (n * y);
    assert a * x + b * y == d * k;
    if k <= 0 {
      Negative(d, k);
    }
    Multiple(d, k);
  }

  lemma {:induction false} Negative(d: nat, k: int)
    ensures k <= 0 ==> d * k <= 0
  {
  }

  lemma {:induction false} GcdDividesBoth(a: nat, b: nat)
    requires a > 0 && b > 0
    ensures Divides(Gcd(a, b), a) && Divides(Gcd(a, b), b)
    decreases b
  {
    if a % b == 0 {
      Multiple(b, 1);
    } else {
      var r := a % b;
      GcdDividesBoth(b, r);
      hide Divides;
      var q := a / b;
      assert a == b * q + r * 1;
      DividesCombination(Gcd(b, r), b, r, q, 1);
    }
  }

  /** The recursive gcd divides both arguments, and every common divisor divides it. */
  lemma {:induction false} GcdIsGreatest(a: nat, b: nat)
    requires a > 0 && b > 0
    ensures Divides(Gcd(a, b), a) && Divides(Gcd(a, b), b)
    ensures forall d: nat :: Divides(d, a) && Divides(d, b) ==> Divides(d, Gcd(a, b))
  {
    hide Divides, Gcd;
    GcdDividesBoth(a, b);
    forall d: nat | Divides(d, a) && Divides(d, b) ensures Divides(d, Gcd(a, b)) {
      var x, y := Bezout(a, b);
      DividesCombination(d, a, b, x, y);
    }
  }

  // One step of the loop.
  function Step(curr: nat, i: nat): nat
    requires curr > 0 && i > 0
  {
    curr * (i / Gcd(curr, i))
  }

  lemma {:induction false} StepIsMultiple(curr: nat, i: nat)
    requires curr > 0 && i > 0
    ensures Step(curr, i) > 0 && Divides(curr, Step(curr, i)) && Divides(i, Step(curr, i))
  {
    hide Divides, Gcd;
    var g := Gcd(curr, i);
    GcdDividesBoth(curr, i);
    Quotient(g, i);
    Quotient(g, curr);
    var m, n := i / g, curr / g;
    Grows(g, m, 1);
    Grows(curr, 0, m);
    Multiple(curr, m);
    assert curr * m == g * n * m == g * m * n == i * n;
    Multiple(i, n);
  }

  lemma {:induction false} Cancel(g: nat, a: nat, b: int)
    requires g > 0 && g * a == g * b
    ensures a == b
  {
    BelowZero(g, b);
    if b >= 0 {
      Grows(g, a, b);
      Grows(g, b, a);
    }
  }

  lemma {:induction false} BelowZero(g: nat, b: int)
    ensures g > 0 && b < 0 ==> g * b < 0
  {
  }

  /** No common multiple of the two is smaller: each is a multiple of what the step yields. */
  lemma {:induction false} StepIsLeast(curr: nat, i: nat, c: nat)
    requires curr > 0 && i > 0 && c > 0 && Divides(curr, c) && Divides(i, c)
    ensures Divides(Step(curr, i), c)
  {
    hide Divides, Gcd;
    var g := Gcd(curr, i);
    var x, y := Bezout(curr, i);
    GcdDividesBoth(curr, i);
    Quotient(g, i);
    Quotient(curr, c);
    Quotient(i, c);
    StepIsMultiple(curr, i);
    var u, v, l := c / curr, c / i, Step(curr, i);
    CommonMultiple(curr, i, g, i / g, x, y, u, v, c);
    var k := v * x + u * y;
    if k < 0 {
      Negative(l, k);
    }
    Multiple(l, k);
  }

  lemma {:induction false} CommonMultiple(a: nat, b: nat, g: nat, m: nat, x: int, y: int, u: nat, v: nat, c: nat)
    requires g == a * x + b * y && b == g * m && c == a * u && c == b * v && g > 0
    ensures c == a * m * (v * x + u * y)
  {
    assert c * g == c * (a * x) + c * (b * y);
    assert c * (a * x) == b * v * (a * x) == a * b * (v * x);
    assert c * (b * y) == a * u * (b * y) == a * b * (u * y);
    assert c * g == a * b * (v * x) + a * b * (u * y) == a * b * (v * x + u * y);
    assert a * b == a * (g * m) == g * (a * m);
    assert g * c == g * (a * m * (v * x + u * y)) by {
      assert g * (a * m) * (v * x + u * y) == g * (a * m * (v * x + u * y));
    }
    Cancel(g, c, a * m * (v * x + u * y));
  }

  // m is a multiple of all, and every other is a multiple of m.
  ghost predicate LeastCommonMultiple(m: nat, s: seq<nat>) {
    && m > 0
    && (forall i :: i in s ==> Divides(i, m))
    && (forall c: nat :: c > 0 && (forall i :: i in s ==> Divides(i, c)) ==> Divides(m, c))
  }

  lemma {:induction false} One(a: nat)
    requires a > 0
    ensures LeastCommonMultiple(a, [a])
  {
    Multiple(a, 1);
  }

  /** Reading one more number. */
  lemma {:induction false} StepKeepsLeast(curr: nat, s: seq<nat>, i: nat)
    requires LeastCommonMultiple(curr, s) && i > 0
    ensures LeastCommonMultiple(Step(curr, i), s + [i])
  {
    hide Divides, Step;
    var l := Step(curr, i);
    StepIsMultiple(curr, i);
    forall j | j in s + [i] ensures Divides(j, l) {
      if j in s {
        DividesTrans(j, curr, l);
      }
    }
    forall c: nat | c > 0 && (forall j :: j in s + [i] ==> Divides(j, c)) ensures Divides(l, c) {
      assert forall j :: j in s ==> j in s + [i];
      assert i in s + [i];
      StepIsLeast(curr, i, c);
    }
  }

  lemma {:induction false} SameMembers(m: nat, s: seq<nat>, t: seq<nat>)
    requires LeastCommonMultiple(m, s) && forall i :: i in s <==> i in t
    ensures LeastCommonMultiple(m, t)
  {
    hide Divides;
  }

  /** The loop. It starts with the first number and reads that number once more. Its value is the least
      common multiple of what has been read; no value on the way is larger than the last, so 64 bits
      suffice exactly when the result fits into them. */
  method Accumulate(numbers: seq<nat>) returns (curr: nat, ghost trace: seq<nat>)
    requires numbers != [] && forall i :: i in numbers ==> i > 0
    ensures LeastCommonMultiple(curr, numbers)
    ensures |trace| == |numbers| && forall k :: 0 <= k < |trace| ==> LeastCommonMultiple(trace[k], numbers[..k + 1]) && trace[k] <= curr
  {
    hide LeastCommonMultiple, Gcd, Divides;
    curr := numbers[0];
    trace := [];
    assert curr in numbers;
    One(curr);
    assert [curr] + numbers[..0] == [curr];
    for k := 0 to |numbers|
      invariant curr > 0 && LeastCommonMultiple(curr, [numbers[0]] + numbers[..k])
      invariant |trace| == k && forall j :: 0 <= j < k ==> LeastCommonMultiple(trace[j], numbers[..j + 1]) && trace[j] <= curr
    {
      var i := numbers[k];
      assert i in numbers;
      StepKeepsLeast(curr, [numbers[0]] + numbers[..k], i);
      assert [numbers[0]] + numbers[..k] + [i] == [numbers[0]] + numbers[..k + 1];
      SameMembers(Step(curr, i), [numbers[0]] + numbers[..k + 1], numbers[..k + 1]);
      NotSmaller(curr, i);
      StepIsMultiple(curr, i);
      curr := curr * (i / Gcd(curr, i));
      trace := trace + [curr];
    }
    assert numbers[..|numbers|] == numbers;
    SameMembers(curr, [numbers[0]] + numbers, numbers);
  }

  lemma {:induction false} NotSmaller(curr: nat, i: nat)
    requires curr > 0 && i > 0
    ensures curr <= Step(curr, i)
  {
    hide Divides;
    StepIsMultiple(curr, i);
    Quotient(curr, Step(curr, i));
    Grows(curr, Step(curr, i) / curr, 1);
  }
}
