/** What happens to shortest distances when a graph gets new nodes, and every new edge has a new
    node at one of its ends. */
module Growth {
  import opened Graph

  /** h is g with the nodes prev..n-1 added: between old nodes the edges are the same. */
  ghost predicate Grows(g: Adjacency, h: Adjacency, prev: nat, n: nat) {
    && prev <= n && WellFormed(g, prev) && Symmetric(h, n)
    && (forall u, e :: 0 <= u < prev && e in g[u] ==> e in h[u])
    && (forall u, e :: 0 <= u < prev && e in h[u] && e.to < prev ==> e in g[u])
  }

  // A walk cut at one of its nodes.
  lemma {:induction false} Cut(g: Adjacency, w: Walk, s: nat, t: nat, x: nat) returns (a: Walk, b: Walk)
    requires Connects(g, w, s, t) && x in w.Nodes()
    ensures Connects(g, a, s, x) && Connects(g, b, x, t)
    ensures w.Length() == a.Length() + b.Length()
  {
    if x == t {
      a, b := w, Start(t);
    } else {
      a, b := Cut(g, w.prefix, s, w.prefix.node, x);
      b := Step(b, w.weight, t);
    }
  }

  // A walk between old nodes that meets no new node was there before.
  lemma {:induction false} OldWalk(g: Adjacency, h: Adjacency, prev: nat, n: nat, w: Walk)
    requires Grows(g, h, prev, n) && w.In(h) && w.Source() < prev
    requires forall v :: v in w.Nodes() ==> v < prev
    ensures w.In(g)
  {
    if w.Step? {
      forall v | v in w.prefix.Nodes() ensures v < prev {
        assert v in w.Nodes();
      }
      assert w.node in w.Nodes() && w.prefix.node in w.prefix.Nodes();
      OldWalk(g, h, prev, n, w.prefix);
      assert Edge(w.node, w.weight) in h[w.prefix.node];
    }
  }

  lemma {:induction false} OldWalkSurvives(g: Adjacency, h: Adjacency, prev: nat, n: nat, w: Walk)
    requires Grows(g, h, prev, n) && w.In(g) && w.Source() < prev
    ensures w.In(h)
  {
    if w.Step? {
      OldWalkSurvives(g, h, prev, n, w.prefix);
      WalkStaysInside(g, prev, w.prefix);
      assert Edge(w.node, w.weight) in g[w.prefix.node];
    }
  }

  // INT_MAX absorbs whatever is added to it.
  function Saturating(x: int, y: int): int {
    if x == INT_MAX || y == INT_MAX then INT_MAX else x + y
  }

  // d is the least of `before` and all detours a[k] + b[k].
  ghost predicate IsBest(d: int, before: int, a: seq<int>, b: seq<int>) {
    && |a| == |b|
    && d <= before && (forall k :: 0 <= k < |a| ==> d <= Saturating(a[k], b[k]))
    && (d == before || exists k :: 0 <= k < |a| && d == Saturating(a[k], b[k]))
  }

  ghost predicate Small(d: int) {
    0 <= d < INT_MAX / 2 || d == INT_MAX
  }

  /** Every walk between old nodes either was there before or passes through a new node: so the
      old distance and the detours through the new nodes determine the new distance. */
  lemma {:induction false} DetoursSuffice(g: Adjacency, h: Adjacency, prev: nat, n: nat, s: nat, t: nat, before: int, a: seq<int>, b: seq<int>, d: int)
    requires Grows(g, h, prev, n) && s < prev && t < prev
    requires IsDistance(g, s, t, before) && before <= INT_MAX
    requires |a| == |b| == n - prev
    requires forall k :: 0 <= k < |a| ==> Small(a[k]) && Small(b[k])
    requires forall k :: 0 <= k < |a| ==> IsDistance(h, s, prev + k, a[k])
    requires forall k :: 0 <= k < |b| ==> IsDistance(h, prev + k, t, b[k])
    requires IsBest(d, before, a, b)
    ensures IsDistance(h, s, t, d)
  {
    forall w | Connects(h, w, s, t) ensures d != INT_MAX && d <= w.Length() {
      BestIsBelow(g, h, prev, n, s, t, before, a, b, d, w);
    }
    if d != INT_MAX {
      if d == before {
        var w :| Connects(g, w, s, t) && w.Length() == d;
        OldWalkSurvives(g, h, prev, n, w);
        assert Connects(h, w, s, t);
      } else {
        var k :| 0 <= k < |a| && d == Saturating(a[k], b[k]);
        var wa :| Connects(h, wa, s, prev + k) && wa.Length() == a[k];
        var wb :| Connects(h, wb, prev + k, t) && wb.Length() == b[k];
        AppendConnects(h, wa, wb, s, prev + k, t);
        assert Connects(h, Append(wa, wb), s, t) && Append(wa, wb).Length() == d;
      }
    }
  }

  lemma {:induction false} BestIsBelow(g: Adjacency, h: Adjacency, prev: nat, n: nat, s: nat, t: nat, before: int, a: seq<int>, b: seq<int>, d: int, w: Walk)
    requires Grows(g, h, prev, n) && s < prev && t < prev
    requires IsDistance(g, s, t, before)
    requires |a| == |b| == n - prev
    requires forall k :: 0 <= k < |a| ==> Small(a[k]) && Small(b[k])
    requires forall k :: 0 <= k < |a| ==> IsDistance(h, s, prev + k, a[k])
    requires forall k :: 0 <= k < |b| ==> IsDistance(h, prev + k, t, b[k])
    requires IsBest(d, before, a, b) && before <= INT_MAX
    requires Connects(h, w, s, t)
    ensures d != INT_MAX && d <= w.Length()
  {
    if x :| x in w.Nodes() && x >= prev {
      WalkStaysInside(h, n, w);
      var k := x - prev;
      var wa, wb := Cut(h, w, s, t, x);
      assert IsDistance(h, s, prev + k, a[k]) && IsDistance(h, prev + k, t, b[k]);
      assert Connects(h, wa, s, prev + k) && Connects(h, wb, prev + k, t);
      assert a[k] != INT_MAX && b[k] != INT_MAX;
      assert d <= Saturating(a[k], b[k]);
    } else {
      OldWalk(g, h, prev, n, w);
      assert Connects(g, w, s, t);
    }
  }
}
