/** The smallest-prime-factor sieve of Assgn1_6_17.sh and the loop that factorises with it. */
module Sieve {
  import opened Arithmetic

  predicate Prime(p: nat) {
    p >= 2 && forall d :: 2 <= d < p ==> !Divides(d, p)
  }

  ghost predicate SmallestPrimeFactor(p: nat, k: nat) {
    Prime(p) && Divides(p, k) && forall q :: Prime(q) && Divides(q, k) ==> p <= q
  }

  // The least divisor of k that is at least d; k itself divides k.
  function LeastFrom(k: nat, d: nat): (p: nat)
    requires 2 <= d <= k
    ensures d <= p <= k && Divides(p, k)
    ensures forall q :: d <= q < p ==> !Divides(q, k)
    decreases k - d
  {
    if Divides(d, k) then d else LeastFrom(k, d + 1)
  }

  function Least(k: nat): (p: nat)
    requires k >= 2
    ensures 2 <= p <= k && Divides(p, k)
    ensures forall q :: 2 <= q < p ==> !Divides(q, k)
  {
    LeastFrom(k, 2)
  }

  /** The least divisor is prime, and it is the smallest prime factor. */
  lemma {:induction false} LeastIsSmallestPrimeFactor(k: nat)
    requires k >= 2
    ensures SmallestPrimeFactor(Least(k), k)
  {
    hide Divides;
    var p := Least(k);
    forall d | 2 <= d < p ensures !Divides(d, p) {
      if Divides(d, p) {
        DividesTrans(d, p, k);
      }
    }
  }

  lemma {:induction false} LeastOfPrime(p: nat)
    requires p >= 2
    ensures Least(p) == p <==> Prime(p)
  {
    hide Divides;
    LeastIsSmallestPrimeFactor(p);
  }

  lemma {:induction false} RestIsSmaller(p: nat, k: nat)
    requires 2 <= p < k && Divides(p, k)
    ensures 2 <= k / p < k && Divides(k / p, k)
  {
    hide Divides;
    var m := k / p;
    Quotient(p, k);
    Grows(p, m, 2);
    Grows(m, 1, p);
    assert m * p == p * m;
    Multiple(m, p);
  }

  // What is left after taking out the least divisor has no smaller one.
  lemma {:induction false} RestHasNoSmaller(k: nat)
    requires k >= 2 && k != Least(k)
    ensures 2 <= k / Least(k) < k && Least(k) <= Least(k / Least(k))
  {
    hide Divides;
    var m := k / Least(k);
    RestIsSmaller(Least(k), k);
    DividesTrans(Least(m), m, k);
  }

  /** Starting at i*i misses nothing: smaller multiples of i have a smaller factor. */
  lemma {:induction false} CompositeIsLarge(k: nat)
    requires k >= 2 && k != Least(k)
    ensures Least(k) * Least(k) <= k
  {
    hide Divides;
    var p := Least(k);
    RestHasNoSmaller(k);
    Quotient(p, k);
    Grows(p, k / p, p);
  }

  // Between two multiples of i that follow each other there is none.
  lemma {:induction false} NoneBetween(i: nat, j: nat, k: nat)
    requires Divides(i, j) && Divides(i, k) && j < k
    ensures j + i <= k
  {
    hide Divides;
    Quotient(i, j);
    Quotient(i, k);
    Grows(i, j / i, k / i);
    Grows(i, k / i, j / i);
  }

  lemma {:induction false} NextMultiple(i: nat, j: nat)
    requires Divides(i, j)
    ensures Divides(i, j + i)
  {
    Quotient(i, j);
    assert i * (j / i + 1) == j + i;
    Multiple(i, j / i + 1);
  }

  // ---------- the sieve ----------

  // Where the smallest prime factor is below i it has been found; all else is 0.
  ghost predicate FoundBelow(spf: seq<nat>, limit: nat, i: nat) {
    && |spf| == limit - 1
    && forall k :: 2 <= k <= limit ==> spf[k - 2] == if Least(k) < i then Least(k) else 0
  }

  // The same while multiples of i are being marked, up to but not including j.
  ghost predicate FoundUpTo(spf: seq<nat>, limit: nat, i: nat, j: nat) {
    && |spf| == limit - 1
    && forall k :: 2 <= k <= limit ==> spf[k - 2] == if Least(k) < i || (Least(k) == i && (k == i || k < j)) then Least(k) else 0
  }

  lemma {:induction false} SkipComposite(spf: seq<nat>, limit: nat, i: nat)
    requires 2 <= i <= limit && FoundBelow(spf, limit, i) && spf[i - 2] != 0
    ensures FoundBelow(spf, limit, i + 1)
  {
    hide Divides;
    forall k | 2 <= k <= limit ensures Least(k) != i {
      LeastIsSmallestPrimeFactor(k);
      LeastOfPrime(i);
    }
  }

  lemma {:induction false} StartPrime(spf: seq<nat>, limit: nat, i: nat)
    requires 2 <= i <= limit && FoundBelow(spf, limit, i) && spf[i - 2] == 0
    ensures Least(i) == i && FoundUpTo(spf[i - 2 := i], limit, i, i * i) && Divides(i, i * i)
  {
    hide Divides;
    Multiple(i, i);
    forall k | 2 <= k <= limit && Least(k) == i && k != i ensures k >= i * i {
      CompositeIsLarge(k);
    }
  }

  lemma {:induction false} MarkOne(spf: seq<nat>, limit: nat, i: nat, j: nat)
    requires 2 <= i < j <= limit && Divides(i, j) && FoundUpTo(spf, limit, i, j)
    ensures FoundUpTo(if spf[j - 2] == 0 then spf[j - 2 := i] else spf, limit, i, j + i) && Divides(i, j + i)
  {
    hide Divides;
    NextMultiple(i, j);
    assert Least(j) <= i;
    forall k | 2 <= k <= limit && Least(k) == i && j < k ensures j + i <= k {
      NoneBetween(i, j, k);
    }
  }

  lemma {:induction false} EndPrime(spf: seq<nat>, limit: nat, i: nat, j: nat)
    requires limit < j && FoundUpTo(spf, limit, i, j)
    ensures FoundBelow(spf, limit, i + 1)
  {
  }

  lemma {:induction false} NothingFound(spf: seq<nat>, limit: nat)
    requires limit >= 1 && |spf| == limit - 1 && forall k :: 0 <= k < |spf| ==> spf[k] == 0
    ensures FoundBelow(spf, limit, 2)
  {
    hide Least;
  }

  lemma {:induction false} AllFound(spf: seq<nat>, limit: nat, k: nat)
    requires FoundBelow(spf, limit, limit + 1) && 2 <= k <= limit
    ensures spf[k - 2] == Least(k)
  {
    hide Least;
  }

  /** After the loops spf[k - 2] is the smallest prime factor of k. */
  method Fill(limit: nat) returns (spf: array<nat>)
    requires limit >= 1
    ensures fresh(spf) && spf.Length == limit - 1
    ensures forall k :: 0 <= k < spf.Length ==> SmallestPrimeFactor(spf[k], k + 2) && spf[k] == Least(k + 2)
  {
    hide Least, LeastFrom, Divides, SmallestPrimeFactor, FoundUpTo, FoundBelow;
    spf := new nat[limit - 1];
    for i := 2 to limit + 1
      invariant forall k :: 0 <= k < i - 2 ==> spf[k] == 0
    {
      spf[i - 2] := 0;
    }
    NothingFound(spf[..], limit);
    var i: nat := 2;
    while i <= limit
      invariant 2 <= i <= limit + 1
      invariant FoundBelow(spf[..], limit, i)
    {
      ghost var before := spf[..];
      if spf[i - 2] == 0 {
        StartPrime(before, limit, i);
        spf[i - 2] := i;
        assert spf[..] == before[i - 2 := i];
        MarkMultiples(spf, limit, i);
      } else {
        SkipComposite(before, limit, i);
      }
      i := i + 1;
    }
    forall k | 0 <= k < limit - 1 ensures SmallestPrimeFactor(spf[k], k + 2) && spf[k] == Least(k + 2) {
      LeastIsSmallestPrimeFactor(k + 2);
      AllFound(spf[..], limit, k + 2);
    }
  }

  /** The inner loop: starts at i*i, never overwrites. */
  method MarkMultiples(spf: array<nat>, limit: nat, i: nat)
    requires 2 <= i <= limit && FoundUpTo(spf[..], limit, i, i * i) && Divides(i, i * i)
    modifies spf
    ensures FoundBelow(spf[..], limit, i + 1)
  {
    hide Least, LeastFrom, Divides;
    var j: nat := i * i;
    assert i < j by { assert i * i >= 2 * i; }
    while j <= limit
      invariant i < j && Divides(i, j)
      invariant FoundUpTo(spf[..], limit, i, j)
      decreases limit - j
    {
      ghost var before := spf[..];
      MarkOne(before, limit, i, j);
      hide FoundUpTo;
      if spf[j - 2] == 0 {
        spf[j - 2] := i;
        assert spf[..] == before[j - 2 := i];
      }
      j := j + i;
    }
    EndPrime(spf[..], limit, i, j);
  }

  // ---------- factorisation ----------

  function Product(s: seq<nat>): nat {
    if s == [] then 1 else Product(s[..|s| - 1]) * s[|s| - 1]
  }

  predicate Rising(s: seq<nat>) {
    forall i, j :: 0 <= i < j < |s| ==> s[i] <= s[j]
  }

  lemma {:induction false} ProductMore(s: seq<nat>, p: nat, rest: nat)
    ensures Product(s + [p]) * rest == Product(s) * (p * rest)
  {
    assert (s + [p])[..|s|] == s;
    assert Product(s) * p * rest == Product(s) * (p * rest);
  }

  // Everything printed so far is at most every factor still to come.
  ghost predicate Before(out: seq<nat>, line: nat) {
    line >= 2 ==> forall p :: p in out ==> p <= Least(line)
  }

  lemma {:induction false} TakeFactor(out: seq<nat>, line: nat)
    requires line >= 2 && Rising(out) && Before(out, line)
    ensures Rising(out + [Least(line)]) && Before(out + [Least(line)], line / Least(line))
    ensures 1 <= line / Least(line) < line && line == Least(line) * (line / Least(line))
  {
    hide Divides;
    var p := Least(line);
    Quotient(p, line);
    if line == p {
      Multiple(line, 1);
    } else {
      RestHasNoSmaller(line);
    }
    assert forall i :: 0 <= i < |out| ==> out[i] in out;
  }

  lemma {:induction false} StartFactors(line: nat)
    ensures Rising([]) && Before([], line) && Product([]) * line == line
  {
  }

  /** The inner while loop of the second part: for inputs in 1..limit it ends, and what it prints are
      primes, in rising order, whose product is the input. */
  method Factorise(spf: array<nat>, limit: nat, number: nat) returns (out: seq<nat>)
    requires spf.Length == limit - 1 && forall k :: 0 <= k < spf.Length ==> spf[k] == Least(k + 2)
    requires 1 <= number <= limit
    ensures Product(out) == number && Rising(out) && forall p :: p in out ==> Prime(p)
  {
    hide Least, LeastFrom, Divides, Prime, Product, Rising, Before;
    var line := number;
    out := [];
    StartFactors(number);
    while line != 1
      invariant 1 <= line <= number
      invariant Product(out) * line == number
      invariant Rising(out) && Before(out, line)
      invariant forall p :: p in out ==> Prime(p)
      decreases line
    {
      var index := line - 2;
      assert spf[index] == Least(line);
      LeastIsSmallestPrimeFactor(line);
      TakeFactor(out, line);
      ProductMore(out, spf[index], line / spf[index]);
      out := out + [spf[index]];
      line := line / spf[index];
    }
  }
}
