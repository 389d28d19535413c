/** dijkstra_algo: label-correcting Dijkstra with a priority queue whose stale entries are never
    removed, and parent pointers from which the printed paths are rebuilt. */
module Dijkstra {
  import opened Finite
  import opened Graph

  // An element of the priority queue; pairs are compared by distance first, then by node.
  datatype Entry = Entry(dist: int, node: nat)

  predicate Before(a: Entry, b: Entry) {
    a.dist < b.dist || (a.dist == b.dist && a.node <= b.node)
  }

  // The three local variables that the main loop updates.
  datatype Frontier = Frontier(dist: seq<int>, parent: seq<int>, pq: multiset<Entry>)

  /** What holds of the three variables throughout. `settled` are the nodes already popped once,
      `tree` gives every reached node the walk that its parent pointers describe, and `bound`
      is at least every finite distance. */
  ghost predicate Shape(g: Adjacency, n: nat, s: nat, f: Frontier, settled: set<nat>, tree: map<nat, Walk>, bound: nat) {
    && |f.dist| == n && |f.parent| == n && s < n && s in tree
    && (forall v :: v in tree ==> v < n)
    && (forall v :: 0 <= v < n ==> (f.dist[v] == INT_MAX <==> v !in tree))
    && (forall v :: v in tree ==> 0 <= f.dist[v] <= bound)
    && (forall v {:trigger Measures(g, s, f.dist, v, tree[v])} :: v in tree ==> Measures(g, s, f.dist, v, tree[v]))
    && (forall v {:trigger Follows(f.parent, v, settled, tree)} :: v in tree ==> Follows(f.parent, v, settled, tree))
    && settled <= tree.Keys
    && tree[s] == Start(s)
  }

  // w is a walk from s to v of the length recorded for v.
  ghost predicate Measures(g: Adjacency, s: nat, dist: seq<int>, v: nat, w: Walk)
    requires v < |dist|
  {
    Connects(g, w, s, v) && w.Length() == dist[v]
  }

  // v's parent pointer is the last edge of v's walk, and the parent's own walk is the rest of it.
  ghost predicate Follows(parent: seq<int>, v: nat, settled: set<nat>, tree: map<nat, Walk>)
    requires v in tree && v < |parent|
  {
    match tree[v]
    case Start(_) => parent[v] == -1
    case Step(p, _, _) => p.node in settled && p.node in tree && tree[p.node] == p && parent[v] == p.node
  }

  // `mark` separates the settled nodes from the others, among the distances and in the queue.
  ghost predicate Ordered(f: Frontier, settled: set<nat>, tree: map<nat, Walk>, mark: int)
  {
    && settled <= tree.Keys
    && (forall v :: v in tree ==> v < |f.dist|)
    && (forall v :: v in tree ==> if v in settled then f.dist[v] <= mark else mark <= f.dist[v])
    && (forall q :: q in f.pq ==> q.node in tree && f.dist[q.node] <= q.dist && mark <= q.dist)
    && (forall v {:trigger Entry(f.dist[v], v)} :: v in tree && v !in settled ==> Entry(f.dist[v], v) in f.pq)
  }

  // No edge out of u can improve a distance, and the sums compared stay in the range of int.
  ghost predicate Relaxed(g: Adjacency, dist: seq<int>, u: nat)
    requires u < |g| && u < |dist|
  {
    forall e :: e in g[u] ==> e.to < |dist| && dist[e.to] <= dist[u] + e.weight < INT_MAX
  }

  ghost predicate AllRelaxed(g: Adjacency, dist: seq<int>, us: set<nat>) {
    forall u :: u in us ==> u < |dist| && u < |g| && Relaxed(g, dist, u)
  }

  // The distances of the settled nodes are final.
  ghost predicate Final(dist0: seq<int>, dist: seq<int>, settled: set<nat>) {
    forall u :: u in settled ==> u < |dist0| && u < |dist| && dist[u] == dist0[u]
  }

  ghost predicate IsMin(top: Entry, pq: multiset<Entry>) {
    top in pq && forall q :: q in pq ==> Before(top, q)
  }

  lemma {:induction false} MinOfMore(pq: multiset<Entry>, a: Entry, b: Entry)
    requires a in pq && IsMin(b, pq - multiset{a})
    ensures IsMin(if Before(a, b) then a else b, pq)
  {
    forall q | q in pq ensures q == a || q in pq - multiset{a} {
    }
  }

  lemma {:induction false} MinOfOne(pq: multiset<Entry>, a: Entry)
    requires a in pq && pq - multiset{a} == multiset{}
    ensures IsMin(a, pq)
  {
    forall q | q in pq ensures q == a || q in pq - multiset{a} {
    }
  }

  lemma {:induction false} MinExists(pq: multiset<Entry>)
    requires pq != multiset{}
    ensures exists top :: IsMin(top, pq)
    decreases |pq|
  {
    hide IsMin, Before;
    var a :| a in pq;
    var rest := pq - multiset{a};
    if rest == multiset{} {
      MinOfOne(pq, a);
    } else {
      MinExists(rest);
      var b :| IsMin(b, rest);
      MinOfMore(pq, a, b);
    }
  }

  // pq.top() followed by pq.pop()
  method PopMin(pq: multiset<Entry>) returns (top: Entry, rest: multiset<Entry>)
    requires pq != multiset{}
    ensures top in pq && rest == pq - multiset{top}
    ensures forall q :: q in pq ==> Before(top, q)
  {
    MinExists(pq);
    ghost var least :| IsMin(least, pq);
    assert least in pq && forall q :: q in pq ==> Before(least, q);
    top :| top in pq && forall q :: q in pq ==> Before(top, q);
    rest := pq - multiset{top};
  }

  // The walk to a settled node is one of those that the final distances certify.
  lemma {:induction false} RelaxedIsLowerBound(g: Adjacency, n: nat, s: nat, dist: seq<int>, w: Walk)
    requires WellFormed(g, n) && |dist| == n && s < n && dist[s] == 0
    requires forall u :: 0 <= u < n && dist[u] != INT_MAX ==> Relaxed(g, dist, u)
    requires w.In(g) && w.Source() == s
    ensures w.node < n && dist[w.node] != INT_MAX && dist[w.node] <= w.Length()
  {
    if w.Step? {
      RelaxedIsLowerBound(g, n, s, dist, w.prefix);
      assert Edge(w.node, w.weight) in g[w.prefix.node];
    }
  }

  lemma {:induction false} PopOrders(f: Frontier, settled: set<nat>, tree: map<nat, Walk>, mark: int, top: Entry)
    requires Ordered(f, settled, tree, mark)
    requires top in f.pq && forall q :: q in f.pq ==> Before(top, q)
    ensures top.node in tree
    ensures top.node !in settled ==> top.dist == f.dist[top.node]
    ensures Ordered(f.(pq := f.pq - multiset{top}), settled + {top.node}, tree, top.dist)
  {
    if top.node !in settled {
      assert Entry(f.dist[top.node], top.node) in f.pq;
    }
    forall v | v in tree && v !in settled
      ensures top.dist <= f.dist[v]
      ensures v != top.node ==> Entry(f.dist[v], v) in f.pq - multiset{top}
    {
      assert Entry(f.dist[v], v) in f.pq;
    }
  }

  lemma {:induction false} PopShapes(g: Adjacency, n: nat, s: nat, f: Frontier, settled: set<nat>, tree: map<nat, Walk>, bound: nat, u: nat, rest: multiset<Entry>)
    requires Shape(g, n, s, f, settled, tree, bound) && u in tree
    ensures Shape(g, n, s, f.(pq := rest), settled + {u}, tree, bound)
  {
    forall v | v in tree ensures Follows(f.parent, v, settled + {u}, tree) {
      assert Follows(f.parent, v, settled, tree);
    }
    forall v | v in tree ensures Measures(g, s, f.(pq := rest).dist, v, tree[v]) {
      assert Measures(g, s, f.dist, v, tree[v]);
    }
  }

  // One successful comparison: e.to is reached better through u.
  function Improve(f: Frontier, u: nat, e: Edge): Frontier
    requires u < |f.dist| == |f.parent| && e.to < |f.dist|
  {
    var d := f.dist[u] + e.weight;
    Frontier(f.dist[e.to := d], f.parent[e.to := u], f.pq + multiset{Entry(d, e.to)})
  }

  lemma {:induction false} ImproveOrders(f: Frontier, settled: set<nat>, tree: map<nat, Walk>, mark: int, u: nat, e: Edge, walk: Walk)
    requires |f.dist| == |f.parent| && Ordered(f, settled, tree, mark)
    requires u in settled && f.dist[u] == mark && e.to < |f.dist|
    requires f.dist[e.to] > f.dist[u] + e.weight
    ensures e.to !in settled
    ensures Ordered(Improve(f, u, e), settled, tree[e.to := walk], mark)
  {
    assert e.to !in settled;
    var f' := Improve(f, u, e);
    forall x | x in tree[e.to := walk] && x !in settled ensures Entry(f'.dist[x], x) in f'.pq {
      if x != e.to { assert Entry(f.dist[x], x) in f.pq; }
    }
  }

  lemma {:induction false} ImproveShapes(g: Adjacency, n: nat, s: nat, f: Frontier, settled: set<nat>, tree: map<nat, Walk>, bound: nat, u: nat, e: Edge)
    requires WellFormed(g, n) && Shape(g, n, s, f, settled, tree, bound)
    requires u in settled && e in g[u] && e.to < n && e.to !in settled
    requires f.dist[u] + e.weight <= bound < INT_MAX
    requires f.dist[e.to] > f.dist[u] + e.weight
    ensures Shape(g, n, s, Improve(f, u, e), settled, tree[e.to := Step(tree[u], e.weight, e.to)], bound)
  {
    var v := e.to;
    var walk := Step(tree[u], e.weight, v);
    var f' := Improve(f, u, e);
    var tree' := tree[v := walk];
    assert Measures(g, s, f.dist, u, tree[u]);
    assert Edge(v, e.weight) == e;
    assert Measures(g, s, f'.dist, v, walk);
    forall x | x in tree' ensures Measures(g, s, f'.dist, x, tree'[x]) {
      if x != v { assert Measures(g, s, f.dist, x, tree[x]); }
    }
    assert v != s by {
      assert Measures(g, s, f.dist, s, tree[s]);
    }
    forall x | x in tree' ensures Follows(f'.parent, x, settled, tree') {
      if x != v { assert Follows(f.parent, x, settled, tree); }
    }
  }

  lemma {:induction false} ImproveKeeps(g: Adjacency, n: nat, s: nat, f: Frontier, settled: set<nat>, tree: map<nat, Walk>,
                     bound: nat, mark: int, u: nat, e: Edge)
    requires WellFormed(g, n) && Shape(g, n, s, f, settled, tree, bound) && Ordered(f, settled, tree, mark)
    requires u in settled && u < n && |f.dist| == |f.parent| == n && e in g[u] && e.to < n && f.dist[u] == mark
    requires f.dist[e.to] > f.dist[u] + e.weight
    requires f.dist[u] + e.weight <= bound < INT_MAX
    ensures u in tree && e.to !in settled
    ensures |Improve(f, u, e).dist| == |Improve(f, u, e).parent| == n
    ensures forall v :: 0 <= v < n ==> Improve(f, u, e).dist[v] == if v == e.to then f.dist[u] + e.weight else f.dist[v]
    ensures var tree' := tree[e.to := Step(tree[u], e.weight, e.to)];
            && Shape(g, n, s, Improve(f, u, e), settled, tree', bound)
            && Ordered(Improve(f, u, e), settled, tree', mark)
  {
    ImproveOrders(f, settled, tree, mark, u, e, Step(tree[u], e.weight, e.to));
    ImproveShapes(g, n, s, f, settled, tree, bound, u, e);
  }

  /** One edge out of u: if v is reached better through u, record it and queue v. */
  method RelaxEdge(g: Adjacency, n: nat, ghost s: nat, u: nat, e: Edge, f0: Frontier, ghost settled: set<nat>,
                   ghost tree0: map<nat, Walk>, ghost bound: nat, ghost mark: int)
    returns (f: Frontier, ghost tree: map<nat, Walk>)
    requires WellFormed(g, n) && Shape(g, n, s, f0, settled, tree0, bound) && Ordered(f0, settled, tree0, mark)
    requires u in settled && u < n && |f0.dist| == |f0.parent| == n && e in g[u] && e.to < n
    requires f0.dist[u] + e.weight < INT_MAX && bound < INT_MAX
    requires f0.dist[e.to] > f0.dist[u] + e.weight ==> f0.dist[u] == mark && f0.dist[u] + e.weight <= bound
    ensures Shape(g, n, s, f, settled, tree, bound) && Ordered(f, settled, tree, mark)
    ensures |f.dist| == |f.parent| == n
    ensures forall v :: 0 <= v < n ==> f.dist[v] <= f0.dist[v]
    ensures f.dist[e.to] <= f0.dist[u] + e.weight
    ensures forall x :: x in settled && x < n ==> f.dist[x] == f0.dist[x]
    ensures f0.dist[e.to] <= f0.dist[u] + e.weight ==> f == f0 && tree == tree0
  {
    hide Shape, Ordered, WellFormed;
    f, tree := f0, tree0;
    if f.dist[e.to] > f.dist[u] + e.weight {
      ImproveKeeps(g, n, s, f, settled, tree, bound, mark, u, e);
      tree := tree[e.to := Step(tree[u], e.weight, e.to)];
      f := Improve(f, u, e);
    }
  }

  /** The inner loop of dijkstra_algo: look along every edge out of u. When u was settled before,
      the entry popped was stale, and the scan changes nothing. */
  method ScanEdges(g: Adjacency, n: nat, ghost s: nat, u: nat, f0: Frontier, ghost settled: set<nat>,
                   ghost tree0: map<nat, Walk>, ghost bound: nat, ghost mark: int, ghost stale: bool)
    returns (f: Frontier, ghost tree: map<nat, Walk>)
    requires WellFormed(g, n)
    requires Shape(g, n, s, f0, settled, tree0, bound) && Ordered(f0, settled, tree0, mark)
    requires u in settled && u < n && |f0.dist| == |f0.parent| == n && bound < INT_MAX
    requires AllRelaxed(g, f0.dist, if stale then settled else settled - {u})
    requires !stale ==> f0.dist[u] == mark
    requires !stale ==> forall e :: e in g[u] ==> f0.dist[u] + e.weight <= bound
    ensures Shape(g, n, s, f, settled, tree, bound) && Ordered(f, settled, tree, mark)
    ensures |f.dist| == |f.parent| == n && AllRelaxed(g, f.dist, settled)
    ensures stale ==> f == f0 && tree == tree0
    ensures Final(f0.dist, f.dist, settled)
  {
    SettledBelow(g, n, s, f0, settled, tree0, bound);
    NoneScanned(g, n, f0.dist, u, settled);
    hide Shape, Ordered, WellFormed, AllRelaxed, Relaxed, Scanned;
    f, tree := f0, tree0;
    for i := 0 to |g[u]|
      invariant Shape(g, n, s, f, settled, tree, bound) && Ordered(f, settled, tree, mark)
      invariant |f.dist| == |f.parent| == n && Scanned(f0.dist, f.dist, u, g[u][..i], settled)
      invariant stale ==> f == f0 && tree == tree0
    {
      ghost var before := f.dist;
      EdgeFits(g, n, f0.dist, before, u, i, settled, bound, stale);
      f, tree := RelaxEdge(g, n, s, u, g[u][i], f, settled, tree, bound, mark);
      ScannedMore(f0.dist, before, f.dist, u, g[u], i, settled);
    }
    assert g[u][..|g[u]|] == g[u];
    StillRelaxed(g, n, f0.dist, f.dist, settled, u, bound, stale);
  }

  // The edges in es have been looked at; distances only fell, those of settled nodes not at all.
  ghost predicate Scanned(dist0: seq<int>, dist: seq<int>, u: nat, es: seq<Edge>, settled: set<nat>) {
    && |dist| == |dist0| && u < |dist0| && Final(dist0, dist, settled)
    && (forall v :: 0 <= v < |dist| ==> dist[v] <= dist0[v])
    && (forall e :: e in es ==> e.to < |dist| && dist[e.to] <= dist0[u] + e.weight)
  }

  lemma {:induction false} ScannedMore(dist0: seq<int>, dist1: seq<int>, dist2: seq<int>, u: nat, es: seq<Edge>, i: nat, settled: set<nat>)
    requires i < |es| && Scanned(dist0, dist1, u, es[..i], settled) && |dist2| == |dist1| && u in settled
    requires es[i].to < |dist2| && dist2[es[i].to] <= dist1[u] + es[i].weight
    requires forall v :: 0 <= v < |dist2| ==> dist2[v] <= dist1[v]
    requires forall x :: x in settled && x < |dist2| ==> dist2[x] == dist1[x]
    ensures Scanned(dist0, dist2, u, es[..i + 1], settled)
  {
    assert es[..i + 1] == es[..i] + [es[i]];
  }

  // What RelaxEdge asks of the edge.
  lemma {:induction false} EdgeFits(g: Adjacency, n: nat, dist0: seq<int>, dist: seq<int>, u: nat, i: nat, settled: set<nat>, bound: nat, stale: bool)
    requires WellFormed(g, n) && u < n && |dist0| == n && u in settled && bound < INT_MAX
    requires AllRelaxed(g, dist0, if stale then settled else settled - {u})
    requires !stale ==> forall e :: e in g[u] ==> dist0[u] + e.weight <= bound
    requires i < |g[u]| && Scanned(dist0, dist, u, g[u][..i], settled)
    ensures g[u][i] in g[u] && g[u][i].to < n && dist[u] == dist0[u] && dist[u] + g[u][i].weight < INT_MAX
    ensures !stale ==> dist[u] + g[u][i].weight <= bound
    ensures stale ==> dist0[g[u][i].to] <= dist0[u] + g[u][i].weight
  {
    assert stale ==> Relaxed(g, dist0, u);
    assert g[u][i] in g[u];
  }

  lemma {:induction false} SettledBelow(g: Adjacency, n: nat, s: nat, f: Frontier, settled: set<nat>, tree: map<nat, Walk>, bound: nat)
    requires Shape(g, n, s, f, settled, tree, bound)
    ensures Final(f.dist, f.dist, settled)
  {
  }

  lemma {:induction false} NoneScanned(g: Adjacency, n: nat, dist: seq<int>, u: nat, settled: set<nat>)
    requires WellFormed(g, n) && u < n == |dist| && Final(dist, dist, settled)
    ensures n <= |g| && Scanned(dist, dist, u, g[u][..0], settled)
  {
  }

  lemma {:induction false} StillRelaxed(g: Adjacency, n: nat, dist0: seq<int>, dist: seq<int>, settled: set<nat>, u: nat, bound: nat, stale: bool)
    requires WellFormed(g, n) && |dist0| == n && AllRelaxed(g, dist0, if stale then settled else settled - {u})
    requires u in settled && u < n && Scanned(dist0, dist, u, g[u], settled) && bound < INT_MAX
    requires !stale ==> forall e :: e in g[u] ==> dist0[u] + e.weight <= bound
    ensures AllRelaxed(g, dist, settled) && Final(dist0, dist, settled)
  {
    forall x | x in settled ensures x < n && x < |g| && Relaxed(g, dist, x) {
      if x != u || stale {
        assert Relaxed(g, dist0, x);
      }
    }
  }

  // The distances settled after k first pops are at most this.
  function Cap(k: nat, maxWeight: nat): nat {
    k * maxWeight
  }

  lemma {:induction false} CapGrows(g: Adjacency, n: nat, settled: set<nat>, u: nat, maxWeight: nat)
    requires FitsInt(g, n, maxWeight) && u < n && forall v :: v in settled ==> v < n
    ensures |settled + {u}| <= n && Cap(|settled + {u}|, maxWeight) < INT_MAX
    ensures Cap(|settled + {u}|, maxWeight) == Cap(|settled|, maxWeight) + if u in settled then 0 else maxWeight
  {
    var next := settled + {u};
    BelowCount(n, next);
    MulMonotone(|next|, n, maxWeight);
    if u in settled {
      assert next == settled;
    } else {
      assert |next| == |settled| + 1;
    }
  }

  lemma {:induction false} MulMonotone(a: nat, b: nat, m: nat)
    requires a <= b
    ensures a * m <= b * m
  {
  }

  /** What a finished search gives: the distances from s, and parent pointers that trace, for every
      reached node and only those, a walk from s of that length. No finite distance is over limit. */
  ghost predicate Solved(g: Adjacency, n: nat, s: nat, dist: seq<int>, parent: seq<int>, tree: map<nat, Walk>, limit: nat) {
    && |dist| == n && |parent| == n
    && (forall t :: t in tree ==> t < n)
    && (forall t :: 0 <= t < n ==> IsDistance(g, s, t, dist[t]))
    && (forall t :: 0 <= t < n ==> (dist[t] != INT_MAX <==> t in tree))
    && (forall t :: t in tree ==> 0 <= dist[t] <= limit)
    && (forall t {:trigger Measures(g, s, dist, t, tree[t])} :: t in tree ==> Measures(g, s, dist, t, tree[t]))
    && (forall t {:trigger Follows(parent, t, tree.Keys, tree)} :: t in tree ==> Follows(parent, t, tree.Keys, tree))
  }

  /** The search itself. On return dist holds the distances from s and the parent pointers trace,
      for every reached node, a walk of that length. */
  method Search(g: Adjacency, n: nat, s: nat, ghost maxWeight: nat)
    returns (dist: seq<int>, parent: seq<int>, ghost tree: map<nat, Walk>)
    requires WellFormed(g, n) && FitsInt(g, n, maxWeight) && s < n
    ensures |dist| == |parent| == n && forall t :: 0 <= t < n ==> IsDistance(g, s, t, dist[t])
    ensures Solved(g, n, s, dist, parent, tree, Cap(n, maxWeight))
  {
    var f := Frontier(seq(n, _ => INT_MAX)[s := 0], seq(n, _ => -1), multiset{Entry(0, s)});
    ghost var settled: set<nat> := {};
    ghost var mark := 0;
    tree := map[s := Start(s)];
    SearchStarts(g, n, s, f);
    assert Cap(|settled|, maxWeight) == 0;
    assert |f.dist| == n <= |g| && AllRelaxed(g, f.dist, settled);
    hide *;
    while f.pq != multiset{}
      invariant Shape(g, n, s, f, settled, tree, Cap(|settled|, maxWeight)) && Ordered(f, settled, tree, mark)
      invariant |f.dist| == n <= |g| && AllRelaxed(g, f.dist, settled) && |settled| <= n
      decreases n - |settled|, |f.pq|
    {
      var top, rest := PopMin(f.pq);
      var u := top.node;
      ghost var stale := u in settled;
      ghost var next := settled + {u};
      PopKeeps(g, n, s, f, settled, tree, maxWeight, mark, top);
      f := f.(pq := rest);
      f, tree := ScanEdges(g, n, s, u, f, next, tree, Cap(|next|, maxWeight), top.dist, stale);
      settled, mark := next, top.dist;
    }
    dist, parent := f.dist, f.parent;
    SearchEnds(g, n, s, f, settled, tree, mark, maxWeight);
  }

  lemma {:induction false} SearchStarts(g: Adjacency, n: nat, s: nat, f: Frontier)
    requires s < n && f == Frontier(seq(n, _ => INT_MAX)[s := 0], seq(n, _ => -1), multiset{Entry(0, s)})
    ensures Shape(g, n, s, f, {}, map[s := Start(s)], 0) && Ordered(f, {}, map[s := Start(s)], 0)
  {
    assert Measures(g, s, f.dist, s, Start(s));
  }

  lemma {:induction false} PopKeeps(g: Adjacency, n: nat, s: nat, f: Frontier, settled: set<nat>, tree: map<nat, Walk>, maxWeight: nat, mark: int, top: Entry)
    requires FitsInt(g, n, maxWeight)
    requires Shape(g, n, s, f, settled, tree, Cap(|settled|, maxWeight)) && Ordered(f, settled, tree, mark)
    requires |f.dist| == n && AllRelaxed(g, f.dist, settled)
    requires top in f.pq && forall q :: q in f.pq ==> Before(top, q)
    ensures top.node < n && |f.dist| == |f.parent| == n && settled + {top.node} <= tree.Keys
    ensures var next := settled + {top.node};
            var f' := f.(pq := f.pq - multiset{top});
            && |next| <= n && Cap(|next|, maxWeight) < INT_MAX
            && Shape(g, n, s, f', next, tree, Cap(|next|, maxWeight))
            && Ordered(f', next, tree, top.dist)
    ensures top.node in settled ==> settled + {top.node} == settled && AllRelaxed(g, f.dist, settled + {top.node})
    ensures top.node !in settled ==>
              && f.dist[top.node] == top.dist && settled + {top.node} - {top.node} == settled
              && forall e :: e in g[top.node] ==> f.dist[top.node] + e.weight <= Cap(|settled + {top.node}|, maxWeight)
  {
    var u, rest := top.node, f.pq - multiset{top};
    var next := settled + {u};
    ShapeFacts(g, n, s, f, settled, tree, Cap(|settled|, maxWeight));
    hide Shape, Ordered, Cap, AllRelaxed;
    PopOrders(f, settled, tree, mark, top);
    PopShapes(g, n, s, f, settled, tree, Cap(|settled|, maxWeight), u, rest);
    CapGrows(g, n, settled, u, maxWeight);
    if u in settled {
      assert next == settled;
    } else {
      assert next - {u} == settled;
    }
    ShapeWider(g, n, s, f.(pq := rest), next, tree, Cap(|settled|, maxWeight), Cap(|next|, maxWeight));
  }

  lemma {:induction false} ShapeFacts(g: Adjacency, n: nat, s: nat, f: Frontier, settled: set<nat>, tree: map<nat, Walk>, bound: nat)
    requires Shape(g, n, s, f, settled, tree, bound)
    ensures |f.dist| == |f.parent| == n && settled <= tree.Keys
    ensures forall v :: v in tree ==> v < n && f.dist[v] <= bound
  {
  }

  lemma {:induction false} ShapeWider(g: Adjacency, n: nat, s: nat, f: Frontier, settled: set<nat>, tree: map<nat, Walk>, bound: nat, bound': nat)
    requires Shape(g, n, s, f, settled, tree, bound) && bound <= bound'
    ensures Shape(g, n, s, f, settled, tree, bound')
  {
  }

  lemma {:induction false} UnsettledIsQueued(f: Frontier, settled: set<nat>, tree: map<nat, Walk>, mark: int)
    requires Ordered(f, settled, tree, mark)
    ensures f.pq != multiset{} || settled == tree.Keys
  {
    if settled != tree.Keys {
      var v :| v in tree && v !in settled;
      assert Entry(f.dist[v], v) in f.pq;
    }
  }

  // When the queue runs empty every reached node is settled, and then the distances are right.
  lemma {:induction false} SearchEnds(g: Adjacency, n: nat, s: nat, f: Frontier, settled: set<nat>, tree: map<nat, Walk>, mark: int, maxWeight: nat)
    requires WellFormed(g, n) && FitsInt(g, n, maxWeight) && f.pq == multiset{}
    requires Shape(g, n, s, f, settled, tree, Cap(|settled|, maxWeight)) && Ordered(f, settled, tree, mark)
    requires |f.dist| == n && AllRelaxed(g, f.dist, settled)
    ensures Solved(g, n, s, f.dist, f.parent, tree, Cap(n, maxWeight))
  {
    UnsettledIsQueued(f, settled, tree, mark);
    BelowCount(n, settled);
    MulMonotone(|settled|, n, maxWeight);
    assert f.dist[s] == 0 by { assert Measures(g, s, f.dist, s, tree[s]); }
    forall u | 0 <= u < n && f.dist[u] != INT_MAX ensures Relaxed(g, f.dist, u) {
      assert u in settled;
    }
    hide Cap, Ordered, Follows, Relaxed, AllRelaxed;
    forall t | 0 <= t < n ensures IsDistance(g, s, t, f.dist[t]) {
      forall w | Connects(g, w, s, t) ensures f.dist[t] != INT_MAX && f.dist[t] <= w.Length() {
        RelaxedIsLowerBound(g, n, s, f.dist, w);
      }
      if t in tree { assert Measures(g, s, f.dist, t, tree[t]); }
    }
  }

  /** Follow the parent pointers from i until -1, then reverse: this ends, and what comes out is a
      walk from s to i of the length found. */
  method TracePath(g: Adjacency, n: nat, s: nat, dist: seq<int>, parent: seq<int>, i: nat,
                   ghost tree: map<nat, Walk>, ghost limit: nat)
    returns (path: seq<nat>)
    requires Solved(g, n, s, dist, parent, tree, limit) && i < n && dist[i] != INT_MAX
    ensures IsPath(g, s, i, dist[i], path)
  {
    path := [];
    var temp: int := i;
    while temp != -1
      invariant temp == -1 || (0 <= temp < n && temp in tree)
      invariant tree[i].Nodes() == (if temp == -1 then [] else tree[temp].Nodes()) + ReverseSeq(path)
      decreases if temp == -1 then 0 else |tree[temp].Nodes()|
    {
      assert Follows(parent, temp, tree.Keys, tree) && Measures(g, s, dist, temp, tree[temp]);
      var v: nat := temp;
      ghost var nodes := tree[v].Nodes();
      TraceStep(tree[i].Nodes(), nodes[..|nodes| - 1], path, v);
      path := path + [v];
      temp := parent[v];
    }
    path := ReverseSeq(path);
    assert Measures(g, s, dist, i, tree[i]);
  }

  lemma {:induction false} TraceStep(whole: seq<nat>, before: seq<nat>, path: seq<nat>, v: nat)
    requires whole == before + [v] + ReverseSeq(path)
    ensures whole == before + ReverseSeq(path + [v])
  {
    AppendReverse(path, v);
    hide ReverseSeq;
    assert before + [v] + ReverseSeq(path) == before + ([v] + ReverseSeq(path));
  }

  lemma {:induction false} AppendReverse(path: seq<nat>, v: nat)
    ensures ReverseSeq(path + [v]) == [v] + ReverseSeq(path)
  {
    assert (path + [v])[..|path|] == path;
  }
}
