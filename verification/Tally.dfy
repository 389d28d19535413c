/** Sums over sequences, and what one update does to them. */
module Tally {

  // The rooms, actions, ... that the elements of s account for, with multiplicity.
  function Bag<T, U>(f: T -> multiset<U>, s: seq<T>): multiset<U> {
    if s == [] then multiset{} else Bag(f, s[..|s| - 1]) + f(s[|s| - 1])
  }

  function Total<T>(f: T -> nat, s: seq<T>): nat {
    if s == [] then 0 else Total(f, s[..|s| - 1]) + f(s[|s| - 1])
  }

  lemma {:induction false} BagUpdate<T, U>(f: T -> multiset<U>, s: seq<T>, i: nat, x: T)
    requires i < |s|
    ensures f(s[i]) <= Bag(f, s)
    ensures Bag(f, s[i := x]) == Bag(f, s) - f(s[i]) + f(x)
  {
    var k := |s| - 1;
    if i < k {
      BagUpdate(f, s[..k], i, x);
      assert s[i := x][..k] == s[..k][i := x];
    } else {
      assert s[i := x][..k] == s[..k];
    }
  }

  lemma {:induction false} BagAppend<T, U>(f: T -> multiset<U>, s: seq<T>, x: T)
    ensures Bag(f, s + [x]) == Bag(f, s) + f(x)
  {
    assert (s + [x])[..|s|] == s;
  }

  lemma {:induction false} BagRemove<T, U>(f: T -> multiset<U>, s: seq<T>, i: nat)
    requires i < |s|
    ensures f(s[i]) <= Bag(f, s)
    ensures Bag(f, s[..i] + s[i + 1..]) == Bag(f, s) - f(s[i])
  {
    var k := |s| - 1;
    if i < k {
      BagRemove(f, s[..k], i);
      assert (s[..i] + s[i + 1..])[..k - 1] == s[..k][..i] + s[..k][i + 1..];
    } else {
      assert s[..i] + s[i + 1..] == s[..k];
    }
  }

  lemma {:induction false} TotalUpdate<T>(f: T -> nat, s: seq<T>, i: nat, x: T)
    requires i < |s|
    ensures f(s[i]) <= Total(f, s)
    ensures Total(f, s[i := x]) == Total(f, s) - f(s[i]) + f(x)
  {
    var k := |s| - 1;
    if i < k {
      TotalUpdate(f, s[..k], i, x);
      assert s[i := x][..k] == s[..k][i := x];
    } else {
      assert s[i := x][..k] == s[..k];
    }
  }

  // With every summand at most m the sum is at most m times the length, and equal only if all are m.
  lemma {:induction false} TotalAtMost<T>(f: T -> nat, s: seq<T>, m: nat)
    requires forall i :: 0 <= i < |s| ==> f(s[i]) <= m
    ensures Total(f, s) <= m * |s|
    ensures Total(f, s) == m * |s| ==> forall i :: 0 <= i < |s| ==> f(s[i]) == m
  {
    if s != [] {
      var k := |s| - 1;
      TotalAtMost(f, s[..k], m);
      assert m * |s| == m * k + m;
      assert forall i :: 0 <= i < k ==> s[..k][i] == s[i];
    }
  }

  lemma {:induction false} TotalZero<T>(f: T -> nat, s: seq<T>)
    ensures Total(f, s) == 0 <==> forall i :: 0 <= i < |s| ==> f(s[i]) == 0
  {
    if s != [] {
      var k := |s| - 1;
      TotalZero(f, s[..k]);
      assert forall i :: 0 <= i < k ==> s[..k][i] == s[i];
    }
  }

  // What is in the bag comes from some element.
  lemma {:induction false} BagHas<T, U>(f: T -> multiset<U>, s: seq<T>, u: U)
    ensures u in Bag(f, s) <==> exists i :: 0 <= i < |s| && u in f(s[i])
  {
    if s != [] {
      var k := |s| - 1;
      BagHas(f, s[..k], u);
      if i :| 0 <= i < |s| && u in f(s[i]) {
        if i < k {
          assert s[..k][i] == s[i];
        }
      }
    }
  }

  // Of two summands that both have u, the bag has at least two.
  lemma {:induction false} BagTwice<T, U>(f: T -> multiset<U>, s: seq<T>, i: nat, j: nat, u: U)
    requires i < j < |s| && u in f(s[i]) && u in f(s[j])
    ensures Bag(f, s)[u] >= 2
    decreases |s|
  {
    var k := |s| - 1;
    if j < k {
      assert s[..k][i] == s[i] && s[..k][j] == s[j];
      BagTwice(f, s[..k], i, j, u);
    } else {
      assert s[..k][i] == s[i];
      BagHas(f, s[..k], u);
    }
  }
}
