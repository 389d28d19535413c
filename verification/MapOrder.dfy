/** The order in which a map from (scope, name) is walked: by scope, then by name. */
module MapOrder {

  // std::string's order.
  predicate NameLe(a: string, b: string) {
    if a == "" then true
    else if b == "" then false
    else if a[0] != b[0] then a[0] < b[0]
    else NameLe(a[1..], b[1..])
  }

  // k is met first among the keys of its scope.
  predicate IsFirst(keys: set<(int, string)>, scope: int, k: (int, string)) {
    k in keys && k.0 == scope && forall x :: x in keys && x.0 == scope ==> NameLe(k.1, x.1)
  }

  lemma {:induction false} NameTotal(a: string, b: string)
    ensures NameLe(a, b) || NameLe(b, a)
    ensures NameLe(a, b) && NameLe(b, a) ==> a == b
    decreases |a|
  {
    if a != "" && b != "" && a[0] == b[0] {
      NameTotal(a[1..], b[1..]);
      assert a == [a[0]] + a[1..] && b == [b[0]] + b[1..];
    }
  }

  lemma {:induction false} NameTrans(a: string, b: string, c: string)
    requires NameLe(a, b) && NameLe(b, c)
    ensures NameLe(a, c)
    decreases |a|
  {
    if a != "" && a[0] == b[0] && b[0] == c[0] {
      NameTrans(a[1..], b[1..], c[1..]);
    }
  }

  lemma {:induction false} NameRefl(a: string)
    ensures NameLe(a, a)
    decreases |a|
  {
    if a != "" {
      NameRefl(a[1..]);
    }
  }

  lemma {:induction false} FirstOfMore(keys: set<(int, string)>, scope: int, k: (int, string), first: (int, string))
    requires k in keys && k.0 == scope && IsFirst(keys - {k}, scope, first)
    ensures IsFirst(keys, scope, if NameLe(k.1, first.1) then k else first)
  {
    hide NameLe;
    NameRefl(k.1);
    NameTotal(k.1, first.1);
    forall x | x in keys && x.0 == scope ensures NameLe((if NameLe(k.1, first.1) then k else first).1, x.1) {
      if x != k && NameLe(k.1, first.1) {
        NameTrans(k.1, first.1, x.1);
      }
    }
  }

  lemma {:induction false} FirstExists(keys: set<(int, string)>, scope: int)
    requires exists x :: x in keys && x.0 == scope
    ensures exists k :: IsFirst(keys, scope, k)
    decreases |keys|
  {
    hide NameLe;
    var k :| k in keys && k.0 == scope;
    var rest := keys - {k};
    if exists x :: x in rest && x.0 == scope {
      FirstExists(rest, scope);
      var first :| IsFirst(rest, scope, first);
      FirstOfMore(keys, scope, k, first);
    } else {
      NameRefl(k.1);
      forall x | x in keys && x.0 == scope ensures x == k {
        assert x == k || x in rest;
      }
      assert IsFirst(keys, scope, k);
    }
  }

  /** There is one first key. */
  lemma {:induction false} FirstUnique(keys: set<(int, string)>, scope: int, k: (int, string), l: (int, string))
    requires IsFirst(keys, scope, k) && IsFirst(keys, scope, l)
    ensures k == l
  {
    NameTotal(k.1, l.1);
  }
}
