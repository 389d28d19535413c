/** The patching of one old pair in compute_shortest_path_optim, as the code reads and as it was
    meant, and when the two give the true distance. */
module Patch {
  import opened Graph
  import opened Growth

  /** Two readings of consumer.cpp:244-249. As written, the loop skips the pair when the index i of
      the source node equals j, and the sum of two ints wraps around. As intended, it skips the
      pair when the source node itself is j, and INT_MAX stays infinite. */
  datatype Reading = AsWritten | Intended

  function Wrap32(z: int): int {
    if z > INT_MAX then z - 0x1_0000_0000 else z
  }

  function Sum(r: Reading, x: int, y: int): int {
    match r
    case AsWritten => Wrap32(x + y)
    case Intended => Saturating(x, y)
  }

  predicate Skips(r: Reading, i: nat, m: nat, j: nat) {
    match r
    case AsWritten => i == j
    case Intended => m == j
  }

  // The loop over k: take a detour whenever it is shorter than what is stored.
  function Patched(r: Reading, d: int, a: seq<int>, b: seq<int>): int
    requires |a| == |b|
  {
    if a == [] then d else
      var k := |a| - 1;
      var p := Patched(r, d, a[..k], b[..k]);
      var s := Sum(r, a[k], b[k]);
      if p > s then s else p
  }

  lemma {:induction false} PatchedNext(r: Reading, d: int, a: seq<int>, b: seq<int>, k: nat)
    requires k < |a| == |b|
    ensures Patched(r, d, a[..k + 1], b[..k + 1]) ==
            var p, s := Patched(r, d, a[..k], b[..k]), Sum(r, a[k], b[k]);
            if p > s then s else p
  {
    assert a[..k + 1][..k] == a[..k] && b[..k + 1][..k] == b[..k];
  }

  // What becomes of the stored distance d from m = mapped[i] to j.
  function PatchedPair(r: Reading, i: nat, m: nat, j: nat, d: int, a: seq<int>, b: seq<int>): int
    requires |a| == |b|
  {
    if Skips(r, i, m, j) then d else Patched(r, d, a, b)
  }

  lemma {:induction false} IntendedIsBest(d: int, a: seq<int>, b: seq<int>)
    requires |a| == |b|
    ensures IsBest(Patched(Intended, d, a, b), d, a, b)
  {
    if a != [] {
      var k := |a| - 1;
      IntendedIsBest(d, a[..k], b[..k]);
      var p := Patched(Intended, d, a[..k], b[..k]);
      assert forall i :: 0 <= i < k ==> a[..k][i] == a[i] && b[..k][i] == b[i];
      if Saturating(a[k], b[k]) >= p && p != d {
        var i :| 0 <= i < k && p == Saturating(a[..k][i], b[..k][i]);
        assert p == Saturating(a[i], b[i]);
      }
    }
  }

  // Every detour is a detour between reachable nodes.
  predicate AllFinite(a: seq<int>, b: seq<int>)
    requires |a| == |b|
  {
    forall k :: 0 <= k < |a| ==> a[k] != INT_MAX && b[k] != INT_MAX
  }

  // Distances between different nodes, or INT_MAX.
  ghost predicate Positive(a: seq<int>) {
    forall k :: 0 <= k < |a| ==> Small(a[k]) && a[k] >= 1
  }

  // Without an INT_MAX among the summands nothing wraps, with one the stored value goes negative.
  lemma {:induction false} WrappedSums(d: int, a: seq<int>, b: seq<int>)
    requires |a| == |b| && Positive(a) && Positive(b)
    ensures AllFinite(a, b) ==> Patched(AsWritten, d, a, b) == Patched(Intended, d, a, b)
    ensures !AllFinite(a, b) ==> Patched(AsWritten, d, a, b) < 0
  {
    if a != [] {
      var k := |a| - 1;
      WrappedSums(d, a[..k], b[..k]);
      if !AllFinite(a, b) {
        var i :| 0 <= i <= k && (a[i] == INT_MAX || b[i] == INT_MAX);
        if i < k {
          assert a[..k][i] == a[i] && b[..k][i] == b[i];
        }
      }
    }
  }

  /** The condition under which the code as written patches a pair correctly. A caller can read it
      off the distance table once the rows of the new nodes are filled in. */
  predicate SafeToPatch(i: nat, j: nat, d: int, a: seq<int>, b: seq<int>)
    requires |a| == |b|
  {
    if i == j then
      forall k :: 0 <= k < |a| ==> d <= Saturating(a[k], b[k])
    else
      AllFinite(a, b)
  }

  // The distances that patching reads: from s to each new node, and from there to t.
  ghost predicate Detours(h: Adjacency, prev: nat, n: nat, s: nat, t: nat, a: seq<int>, b: seq<int>) {
    && prev <= n && |a| == |b| == n - prev
    && Positive(a) && Positive(b)
    && (forall k :: 0 <= k < |a| ==> IsDistance(h, s, prev + k, a[k]))
    && (forall k :: 0 <= k < |b| ==> IsDistance(h, prev + k, t, b[k]))
  }

  lemma {:induction false} NegativeIsNoDistance(h: Adjacency, s: nat, t: nat, d: int)
    requires d < 0
    ensures !IsDistance(h, s, t, d)
  {
  }

  lemma {:induction false} ZeroToSelf(g: Adjacency, s: nat, d: int)
    requires IsDistance(g, s, s, d)
    ensures d == 0
  {
    assert Connects(g, Start(s), s, s);
  }

  /** Read as intended, patching always turns the old distance into the new one. */
  lemma {:induction false} IntendedPatchIsExact(g: Adjacency, h: Adjacency, prev: nat, n: nat, i: nat, s: nat, t: nat, d: int, a: seq<int>, b: seq<int>)
    requires Grows(g, h, prev, n) && s < prev && t < prev
    requires IsDistance(g, s, t, d) && d <= INT_MAX && Detours(h, prev, n, s, t, a, b)
    ensures IsDistance(h, s, t, PatchedPair(Intended, i, s, t, d, a, b))
  {
    if s == t {
      ZeroToSelf(g, s, d);
      assert Connects(h, Start(s), s, s);
    } else {
      IntendedIsBest(d, a, b);
      DetoursSuffice(g, h, prev, n, s, t, d, a, b, Patched(Intended, d, a, b));
    }
  }

  /** Read as written, it does so exactly when the pair is safe to patch. */
  lemma {:induction false} AsWrittenPatchIsExactIff(g: Adjacency, h: Adjacency, prev: nat, n: nat, i: nat, s: nat, t: nat, d: int, a: seq<int>, b: seq<int>)
    requires Grows(g, h, prev, n) && s < prev && t < prev
    requires IsDistance(g, s, t, d) && d <= INT_MAX && Detours(h, prev, n, s, t, a, b)
    ensures IsDistance(h, s, t, PatchedPair(AsWritten, i, s, t, d, a, b)) <==> SafeToPatch(i, t, d, a, b)
  {
    var best := Patched(Intended, d, a, b);
    IntendedIsBest(d, a, b);
    DetoursSuffice(g, h, prev, n, s, t, d, a, b, best);
    if i == t {
      if IsDistance(h, s, t, d) { DistanceUnique(h, s, t, d, best); }
    } else {
      WrappedSums(d, a, b);
      if !AllFinite(a, b) { NegativeIsNoDistance(h, s, t, Patched(AsWritten, d, a, b)); }
    }
  }

  // No walk leaves a node without edges.
  lemma {:induction false} NoWayOut(g: Adjacency, s: nat, t: nat)
    requires s < |g| && g[s] == [] && s != t
    ensures IsDistance(g, s, t, INT_MAX)
  {
    forall w ensures !Connects(g, w, s, t) {
      StaysAtSource(g, s, w);
    }
  }

  lemma {:induction false} StaysAtSource(g: Adjacency, s: nat, w: Walk)
    requires s < |g| && g[s] == []
    ensures w.In(g) && w.Source() == s ==> w == Start(s)
  {
    if w.Step? {
      StaysAtSource(g, s, w.prefix);
    }
  }

  /** Two rounds on which the code as written goes wrong. Nodes 0 and 1 are not connected, which the
      table has right. A new node 2 joined to both makes their distance 2; but for a consumer whose
      first node is 1 the pair (1, 0) has index i = j = 0, is skipped, and stays at INT_MAX. */
  lemma {:induction false} GuardSkipsAPair()
    ensures var g, h := [[], []], [[Edge(2, 1)], [Edge(2, 1)], [Edge(0, 1), Edge(1, 1)]];
            && Grows(g, h, 2, 3) && IsDistance(g, 1, 0, INT_MAX) && Detours(h, 2, 3, 1, 0, [1], [1])
            && PatchedPair(AsWritten, 0, 1, 0, INT_MAX, [1], [1]) == INT_MAX
            && !SafeToPatch(0, 0, INT_MAX, [1], [1]) && !IsDistance(h, 1, 0, INT_MAX)
  {
    var g: Adjacency := [[], []];
    var h: Adjacency := [[Edge(2, 1)], [Edge(2, 1)], [Edge(0, 1), Edge(1, 1)]];
    NoWayOut(g, 1, 0);
    JoinedByTwo(g, h);
    UnsafeToSkip();
    hide SafeToPatch, Detours, Grows, IsDistance;
    AsWrittenPatchIsExactIff(g, h, 2, 3, 0, 1, 0, INT_MAX, [1], [1]);
  }

  lemma {:induction false} JoinedByTwo(g: Adjacency, h: Adjacency)
    requires g == [[], []] && h == [[Edge(2, 1)], [Edge(2, 1)], [Edge(0, 1), Edge(1, 1)]]
    ensures Grows(g, h, 2, 3) && Detours(h, 2, 3, 1, 0, [1], [1])
  {
    hide IsDistance, Detours, Grows, UnitWeights, WellFormed;
    UnitEdges(h);
    GrownByTwo(g, h);
    OneEdgeApart(h, 1, 2);
    OneEdgeApart(h, 2, 0);
    OneDetour(h, 2, 1, 0, 1, 1);
  }

  lemma {:induction false} GrownByTwo(g: Adjacency, h: Adjacency)
    requires g == [[], []] && h == [[Edge(2, 1)], [Edge(2, 1)], [Edge(0, 1), Edge(1, 1)]]
    ensures Grows(g, h, 2, 3)
  {
  }

  lemma {:induction false} UnitEdges(h: Adjacency)
    requires h == [[Edge(2, 1)], [Edge(2, 1)], [Edge(0, 1), Edge(1, 1)]]
    ensures WellFormed(h, 3) && UnitWeights(h, 3)
  {
  }

  // What patching reads when there is one new node.
  lemma {:induction false} OneDetour(h: Adjacency, prev: nat, s: nat, t: nat, x: int, y: int)
    requires IsDistance(h, s, prev, x) && IsDistance(h, prev, t, y) && 1 <= x <= INT_MAX && 1 <= y <= INT_MAX
    ensures Small(x) && Small(y) ==> Detours(h, prev, prev + 1, s, t, [x], [y])
  {
    hide IsDistance;
  }

  lemma {:induction false} OneEdgeApart(g: Adjacency, s: nat, t: nat)
    requires WellFormed(g, 3) && UnitWeights(g, 3) && s < 3 && s != t && Edge(t, 1) in g[s]
    ensures IsDistance(g, s, t, 1)
  {
    DifferentNodesApart(g, 3, s, t);
    var v, w := Start(s), Step(Start(s), 1, t);
    assert v.In(g) && v.node == s < |g| && v.Source() == s && v.Length() == 0;
    assert w.In(g) && w.Source() == s && w.Length() == 1;
    assert Connects(g, w, s, t);
  }

  lemma {:induction false} UnsafeToSkip()
    ensures !SafeToPatch(0, 0, INT_MAX, [1], [1])
  {
    var a: seq<int> := [1];
    assert INT_MAX > Saturating(a[0], a[0]);
  }

  /** Here the new node 2 is joined to 1 only. Nothing reaches 0, yet INT_MAX + 1 wraps around and
      the pair (0, 1) is given a negative distance. */
  lemma {:induction false} SumWrapsAround()
    ensures var g, h := [[], []], [[], [Edge(2, 1)], [Edge(1, 1)]];
            && Grows(g, h, 2, 3) && IsDistance(g, 0, 1, INT_MAX) && Detours(h, 2, 3, 0, 1, [INT_MAX], [1])
            && PatchedPair(AsWritten, 0, 0, 1, INT_MAX, [INT_MAX], [1]) == -0x8000_0000
            && !SafeToPatch(0, 1, INT_MAX, [INT_MAX], [1]) && !IsDistance(h, 0, 1, -0x8000_0000)
  {
    var g: Adjacency := [[], []];
    var h: Adjacency := [[], [Edge(2, 1)], [Edge(1, 1)]];
    NoWayOut(g, 0, 1);
    NoWayOut(h, 0, 2);
    assert Connects(h, Step(Start(2), 1, 1), 2, 1);
    DifferentNodesApart(h, 3, 2, 1);
    assert Patched(AsWritten, INT_MAX, [], []) == INT_MAX;
    assert [INT_MAX][..0] == [] && [1][..0] == [];
    NegativeIsNoDistance(h, 0, 1, -0x8000_0000);
  }

  // All edges weigh 1, as main builds them.
  ghost predicate UnitWeights(g: Adjacency, n: nat) {
    && n <= |g|
    && forall u, e :: 0 <= u < n && e in g[u] ==> e.weight == 1
  }

  lemma {:induction false} DifferentNodesApart(g: Adjacency, n: nat, s: nat, t: nat)
    requires WellFormed(g, n) && UnitWeights(g, n) && s < n && s != t
    ensures forall w :: Connects(g, w, s, t) ==> w.Length() >= 1
  {
    forall w | Connects(g, w, s, t) ensures w.Length() >= 1 {
      WalkStaysInside(g, n, w.prefix);
      assert Edge(w.node, w.weight) in g[w.prefix.node];
    }
  }

  /** The path printed for a patched pair, the reversed path from the new node to s followed by the
      path from the new node to t, is a walk whose length is the sum stored. */
  lemma {:induction false} SplicedPath(h: Adjacency, n: nat, x: nat, s: nat, t: nat, a: int, b: int, p: seq<nat>, q: seq<nat>)
    requires Symmetric(h, n) && x < n
    requires IsPath(h, x, s, a, p) && IsPath(h, x, t, b, q)
    ensures q != [] && IsPath(h, s, t, a + b, ReverseSeq(p) + q[1..])
  {
    var v :| Connects(h, v, x, s) && v.Length() == a && v.Nodes() == p;
    var w :| Connects(h, w, x, t) && w.Length() == b && w.Nodes() == q;
    ReverseConnects(h, n, v, x, s);
    AppendConnects(h, Reverse(v), w, s, x, t);
    assert Connects(h, Append(Reverse(v), w), s, t);
  }
}
