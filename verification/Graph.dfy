/** Weighted graphs as adjacency lists, walks through them, and what it means for a number to be
    the shortest distance between two nodes. */
module Graph {

  // INT_MAX, which the program uses for "no path known"
  const INT_MAX := 2147483647

  datatype Edge = Edge(to: nat, weight: nat)

  type Adjacency = seq<seq<Edge>>

  // The nodes are 0..n-1; rows from n on belong to nodes that do not exist yet.
  ghost predicate WellFormed(g: Adjacency, n: nat) {
    && n <= |g|
    && forall u, e :: 0 <= u < n && e in g[u] ==> e.to < n
  }

  // Undirected: every edge is listed at both of its ends.
  ghost predicate Symmetric(g: Adjacency, n: nat) {
    && WellFormed(g, n)
    && forall u, e :: 0 <= u < n && e in g[u] ==> Edge(u, e.weight) in g[e.to]
  }

  // No simple path can be as long as INT_MAX.
  ghost predicate FitsInt(g: Adjacency, n: nat, maxWeight: nat) {
    && n <= |g|
    && (forall u, e :: 0 <= u < n && e in g[u] ==> e.weight <= maxWeight)
    && n * maxWeight < INT_MAX
  }

  /** A walk, grown at its far end one edge at a time. */
  datatype Walk = Start(node: nat) | Step(prefix: Walk, weight: nat, node: nat)
  {
    function Source(): nat {
      match this
      case Start(v) => v
      case Step(p, _, _) => p.Source()
    }

    function Length(): nat {
      match this
      case Start(_) => 0
      case Step(p, w, _) => p.Length() + w
    }

    // The nodes visited, in order, as the program prints them.
    function Nodes(): (s: seq<nat>)
      ensures |s| > 0 && s[|s| - 1] == node && s[0] == Source()
    {
      match this
      case Start(v) => [v]
      case Step(p, _, v) => p.Nodes() + [v]
    }

    ghost predicate In(g: Adjacency) {
      match this
      case Start(v) => true
      case Step(p, w, v) => p.In(g) && p.node < |g| && Edge(v, w) in g[p.node]
    }
  }

  ghost predicate Connects(g: Adjacency, w: Walk, s: nat, t: nat) {
    w.In(g) && w.Source() == s && w.node == t
  }

  // d is the length of a shortest walk from s to t, or INT_MAX when there is no walk at all.
  ghost predicate IsDistance(g: Adjacency, s: nat, t: nat, d: int) {
    if d == INT_MAX then
      forall w :: !Connects(g, w, s, t)
    else
      && (exists w :: Connects(g, w, s, t) && w.Length() == d)
      && forall w :: Connects(g, w, s, t) ==> d <= w.Length()
  }

  // p is what the program prints for a walk of length d from s to t.
  ghost predicate IsPath(g: Adjacency, s: nat, t: nat, d: int, p: seq<nat>) {
    exists w :: Connects(g, w, s, t) && w.Length() == d && w.Nodes() == p
  }

  lemma {:induction false} DistanceUnique(g: Adjacency, s: nat, t: nat, d: int, d': int)
    requires IsDistance(g, s, t, d) && IsDistance(g, s, t, d')
    ensures d == d'
  {
    if d != INT_MAX {
      var w :| Connects(g, w, s, t) && w.Length() == d;
      assert Connects(g, w, s, t);
    }
    if d' != INT_MAX {
      var w :| Connects(g, w, s, t) && w.Length() == d';
      assert Connects(g, w, s, t);
    }
  }

  // ---------- joining and reversing walks ----------

  function Append(a: Walk, b: Walk): Walk {
    match b
    case Start(_) => a
    case Step(p, w, v) => Step(Append(a, p), w, v)
  }

  lemma {:induction false} AppendConnects(g: Adjacency, a: Walk, b: Walk, s: nat, m: nat, t: nat)
    requires Connects(g, a, s, m) && Connects(g, b, m, t)
    ensures Connects(g, Append(a, b), s, t)
    ensures Append(a, b).Length() == a.Length() + b.Length()
    ensures Append(a, b).Nodes() == a.Nodes() + b.Nodes()[1..]
  {
    match b
    case Start(_) =>
    case Step(p, w, v) => AppendConnects(g, a, p, s, m, p.node);
  }

  function Reverse(w: Walk): Walk {
    match w
    case Start(_) => w
    case Step(p, k, v) => Append(Step(Start(v), k, p.node), Reverse(p))
  }

  function ReverseSeq<T>(s: seq<T>): (r: seq<T>)
    ensures |r| == |s|
    ensures forall i :: 0 <= i < |s| ==> r[i] == s[|s| - 1 - i]
  {
    if s == [] then [] else [s[|s| - 1]] + ReverseSeq(s[..|s| - 1])
  }

  lemma {:induction false} WalkStaysInside(g: Adjacency, n: nat, w: Walk)
    requires WellFormed(g, n) && w.In(g) && w.Source() < n
    ensures w.node < n
    ensures forall v :: v in w.Nodes() ==> v < n
  {
    if w.Step? {
      WalkStaysInside(g, n, w.prefix);
    }
  }

  lemma {:induction false} ReverseConnects(g: Adjacency, n: nat, w: Walk, s: nat, t: nat)
    requires Symmetric(g, n) && s < n && Connects(g, w, s, t)
    ensures Connects(g, Reverse(w), t, s)
    ensures Reverse(w).Length() == w.Length()
    ensures Reverse(w).Nodes() == ReverseSeq(w.Nodes())
  {
    match w
    case Start(_) =>
    case Step(p, k, v) =>
      StepBack(g, n, p, k, v);
      hide Symmetric, ReverseSeq;
      ReverseConnects(g, n, p, s, p.node);
      var first := Step(Start(v), k, p.node);
      AppendConnects(g, first, Reverse(p), v, p.node, s);
      assert first.Nodes() == [v, p.node];
      ReverseMore(p.Nodes(), v);
  }

  lemma {:induction false} StepBack(g: Adjacency, n: nat, p: Walk, k: nat, v: nat)
    requires Symmetric(g, n) && Step(p, k, v).In(g) && p.Source() < n
    ensures var first := Step(Start(v), k, p.node); Connects(g, first, v, p.node) && first.Length() == k
  {
    WalkStaysInside(g, n, p);
    assert Start(v).In(g);
  }

  lemma {:induction false} ReverseMore(s: seq<nat>, v: nat)
    requires s != []
    ensures ReverseSeq(s + [v]) == [v] + ReverseSeq(s) && ReverseSeq(s)[0] == s[|s| - 1]
  {
    assert (s + [v])[..|s|] == s;
  }

  // In an undirected graph distances are the same both ways.
  lemma {:induction false} DistanceSymmetric(g: Adjacency, n: nat, s: nat, t: nat, d: int)
    requires Symmetric(g, n) && s < n && t < n && IsDistance(g, s, t, d)
    ensures IsDistance(g, t, s, d)
  {
    forall w | Connects(g, w, t, s) ensures d != INT_MAX && d <= w.Length() {
      ReverseConnects(g, n, w, t, s);
      assert Connects(g, Reverse(w), s, t);
    }
    if d != INT_MAX {
      var w :| Connects(g, w, s, t) && w.Length() == d;
      ReverseConnects(g, n, w, s, t);
      assert Connects(g, Reverse(w), t, s) && Reverse(w).Length() == d;
    }
  }
}
