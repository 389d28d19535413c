/** Small facts about finite sets of natural numbers. */
module Finite {

  // At most n numbers are below n.
  lemma {:induction false} BelowCount(n: nat, vs: set<nat>)
    requires forall v :: v in vs ==> v < n
    ensures |vs| <= n
  {
    if n == 0 {
      assert vs == {};
    } else {
      BelowCount(n - 1, vs - {n - 1});
    }
  }

  ghost predicate IsLeast(p: nat, s: set<nat>) {
    p in s && forall q :: q in s ==> p <= q
  }

  lemma {:induction false} LeastExists(s: set<nat>)
    requires s != {}
    ensures exists p :: IsLeast(p, s)
  {
    var p :| p in s;
    var rest := s - {p};
    if rest == {} {
      assert s == rest + {p};
      assert IsLeast(p, s);
    } else {
      LeastExists(rest);
      var least :| IsLeast(least, rest);
      assert IsLeast(if p < least then p else least, s) by {
        assert forall q :: q in s ==> q == p || q in rest;
      }
    }
  }
}
