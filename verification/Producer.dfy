/** The producer's round, and how the nodes are dealt out to the ten consumers. */
module Producer {
  import opened Consumer

  const CONSUMERS := 10
  const SHM_EDGE_SZ := 150000
  const SHM_NODE_MAP_SZ := 100

  // ---------- shares ----------

  // Where consumer c's share of n nodes starts: the first n % 10 consumers get one node more.
  function Cut(n: nat, c: nat): nat {
    c * (n / CONSUMERS) + if c < n % CONSUMERS then c else n % CONSUMERS
  }

  function Range(a: nat, b: nat): seq<nat>
    decreases b
  {
    if a < b then Range(a, b - 1) + [b - 1] else []
  }

  lemma {:induction false} RangeIs(a: nat, b: nat)
    ensures |Range(a, b)| == (if a <= b then b - a else 0)
    ensures forall k :: 0 <= k < |Range(a, b)| ==> Range(a, b)[k] == a + k
    decreases b
  {
    if a < b {
      RangeIs(a, b - 1);
    }
  }

  // Consumer c's share when n nodes are added after the first `first` ones.
  function Share(first: nat, n: nat, c: nat): seq<nat> {
    Range(first + Cut(n, c), first + Cut(n, c + 1))
  }

  function Sum(counts: seq<nat>): nat {
    if counts == [] then 0 else Sum(counts[..|counts| - 1]) + counts[|counts| - 1]
  }

  // What consumer c has mapped after rounds that added so many nodes each.
  function MappedTo(counts: seq<nat>, c: nat): seq<nat> {
    if counts == [] then []
    else var earlier := counts[..|counts| - 1];
         MappedTo(earlier, c) + Share(Sum(earlier), counts[|counts| - 1], c)
  }

  lemma {:induction false} CutNext(n: nat, c: nat)
    ensures Cut(n, c + 1) == Cut(n, c) + n / CONSUMERS + (if c < n % CONSUMERS then 1 else 0)
  {
    assert (c + 1) * (n / CONSUMERS) == c * (n / CONSUMERS) + n / CONSUMERS;
  }

  /** The first cut is at 0, the last at n, and any two shares differ by at most one node. */
  lemma {:induction false} SharesEven(n: nat, c: nat, d: nat)
    requires c <= d < CONSUMERS
    ensures Cut(n, 0) == 0 && Cut(n, CONSUMERS) == n && Cut(n, c) <= Cut(n, d)
    ensures 0 <= |Share(0, n, c)| - |Share(0, n, d)| <= 1
  {
    hide Cut, Range;
    RangeIs(Cut(n, c), Cut(n, c + 1));
    RangeIs(Cut(n, d), Cut(n, d + 1));
    CutNext(n, c);
    CutNext(n, d);
    CutEnds(n);
    CutRises(n, c, d);
  }

  lemma {:induction false} CutEnds(n: nat)
    ensures Cut(n, 0) == 0 && Cut(n, CONSUMERS) == n
  {
  }

  lemma {:induction false} CutRises(n: nat, c: nat, d: nat)
    requires c <= d
    ensures Cut(n, c) <= Cut(n, d)
    decreases d
  {
    hide Cut;
    if c < d {
      CutRises(n, c, d - 1);
      CutNext(n, d - 1);
    }
  }

  // The consumer below c whose share contains node number t.
  lemma {:induction false} OwnerExists(n: nat, t: nat, c: nat) returns (owner: nat)
    requires t < Cut(n, c)
    ensures owner < c && Cut(n, owner) <= t < Cut(n, owner + 1)
    decreases c
  {
    hide Cut;
    CutEnds(n);
    if t < Cut(n, c - 1) {
      owner := OwnerExists(n, t, c - 1);
    } else {
      owner := c - 1;
    }
  }

  lemma {:induction false} RangeHas(a: nat, b: nat, id: nat)
    ensures multiset(Range(a, b))[id] == (if a <= id < b then 1 else 0)
    decreases b
  {
    if a < b {
      var before := Range(a, b - 1);
      assert Range(a, b) == before + [b - 1];
      hide Range;
      RangeHas(a, b - 1, id);
      AppendCounts(before, b - 1, id);
    }
  }

  lemma {:induction false} AppendCounts(s: seq<nat>, x: nat, y: nat)
    ensures multiset(s + [x])[y] == multiset(s)[y] + if x == y then 1 else 0
  {
  }

  /** A share contains the owner's nodes and nobody else's. */
  lemma {:induction false} ShareHas(first: nat, n: nat, id: nat, owner: nat, c: nat)
    requires first <= id && Cut(n, owner) <= id - first < Cut(n, owner + 1)
    ensures multiset(Share(first, n, c))[id] == (if c == owner then 1 else 0)
  {
    hide Cut, Range;
    RangeHas(first + Cut(n, c), first + Cut(n, c + 1), id);
    if c < owner {
      CutRises(n, c + 1, owner);
    } else if owner < c {
      CutRises(n, owner + 1, c);
    }
  }

  lemma {:induction false} ShareHasNone(first: nat, n: nat, id: nat, c: nat)
    requires c < CONSUMERS && (id < first || first + n <= id)
    ensures multiset(Share(first, n, c))[id] == 0
  {
    hide Cut, Range;
    RangeHas(first + Cut(n, c), first + Cut(n, c + 1), id);
    CutEnds(n);
    CutRises(n, c + 1, CONSUMERS);
  }

  lemma {:induction false} MappedHasNone(counts: seq<nat>, id: nat, c: nat)
    requires c < CONSUMERS && Sum(counts) <= id
    ensures multiset(MappedTo(counts, c))[id] == 0
  {
    if counts != [] {
      var k := |counts| - 1;
      MappedHasNone(counts[..k], id, c);
      ShareHasNone(Sum(counts[..k]), counts[k], id, c);
    }
  }

  /** Main result: after any number of rounds every node there is belongs to exactly one of the ten
      consumers, which has it once; and nobody has any other number. */
  lemma {:induction false} OneConsumer(counts: seq<nat>, id: nat) returns (owner: nat)
    ensures owner < CONSUMERS
    ensures forall c :: 0 <= c < CONSUMERS ==> multiset(MappedTo(counts, c))[id] == (if c == owner && id < Sum(counts) then 1 else 0)
  {
    hide Share, Cut;
    if Sum(counts) <= id {
      owner := 0;
      forall c | 0 <= c < CONSUMERS ensures multiset(MappedTo(counts, c))[id] == 0 {
        MappedHasNone(counts, id, c);
      }
    } else {
      var k := |counts| - 1;
      var earlier, n := counts[..k], counts[k];
      var first := Sum(earlier);
      if id < first {
        owner := OneConsumer(earlier, id);
        forall c | 0 <= c < CONSUMERS ensures multiset(Share(first, n, c))[id] == 0 {
          ShareHasNone(first, n, id, c);
        }
      } else {
        CutEnds(n);
        owner := OwnerExists(n, id - first, CONSUMERS);
        forall c | 0 <= c < CONSUMERS ensures multiset(MappedTo(counts, c))[id] == (if c == owner then 1 else 0) {
          MappedHasNone(earlier, id, c);
          ShareHas(first, n, id, owner, c);
        }
      }
    }
  }

  // ---------- the first mapping, in each consumer ----------

  method MapInitialNodes(numNodes: nat, consumerId: nat) returns (mapped: seq<nat>)
    requires consumerId < CONSUMERS
    ensures mapped == Share(0, numNodes, consumerId)
  {
    var perConsumer := numNodes / 10;
    var rem := numNodes % 10;
    CutNext(numNodes, consumerId);
    mapped := [];
    if consumerId < rem {
      perConsumer := perConsumer + 1;
      assert consumerId * perConsumer == Cut(numNodes, consumerId);
      hide Cut;
      for i := 0 to perConsumer
        invariant mapped == Range(Cut(numNodes, consumerId), Cut(numNodes, consumerId) + i)
      {
        mapped := mapped + [consumerId * perConsumer + i];
      }
    } else {
      FirstOfLater(perConsumer, rem, consumerId);
      assert rem * (perConsumer + 1) + (consumerId - rem) * perConsumer == Cut(numNodes, consumerId);
      hide Cut;
      for i := 0 to perConsumer
        invariant mapped == Range(Cut(numNodes, consumerId), Cut(numNodes, consumerId) + i)
      {
        mapped := mapped + [rem * (perConsumer + 1) + (consumerId - rem) * perConsumer + i];
      }
    }
  }

  lemma {:induction false} FirstOfLater(q: nat, rem: nat, c: nat)
    requires rem <= c
    ensures rem * (q + 1) + (c - rem) * q == c * q + rem
  {
  }

  // ---------- shared memory ----------

  // A list in a segment: its length, its members, and -1 for the rest.
  ghost predicate Holds(segment: seq<int>, nodes: seq<nat>) {
    && |segment| == SHM_NODE_MAP_SZ && |nodes| < SHM_NODE_MAP_SZ && segment[0] == |nodes|
    && (forall j :: 1 <= j <= |nodes| ==> segment[j] == nodes[j - 1])
    && (forall j :: |nodes| < j < SHM_NODE_MAP_SZ ==> segment[j] == -1)
  }

  /** What a consumer reads back from its segment. */
  method ReadSegment(segment: array<int>, ghost nodes: seq<nat>) returns (mapped: seq<int>)
    requires Holds(segment[..], nodes)
    ensures mapped == nodes
  {
    var count := segment[0];
    assert segment[..][0] == count;
    mapped := [];
    for i := 1 to count + 1
      invariant mapped == nodes[..i - 1]
    {
      assert segment[..][i] == segment[i];
      mapped := mapped + [segment[i]];
    }
  }

  // Segment i gets the first count of the nodes that are left.
  method WriteSegment(segment: array<int>, nodes: seq<nat>, count: nat)
    requires segment.Length == SHM_NODE_MAP_SZ && count < SHM_NODE_MAP_SZ && count <= |nodes|
    modifies segment
    ensures Holds(segment[..], nodes[..count])
  {
    segment[0] := count;
    for j := 0 to count
      invariant segment[0] == count
      invariant forall k :: 1 <= k < j + 1 ==> segment[k] == nodes[k - 1]
    {
      segment[j + 1] := nodes[j];
    }
    for j := count + 1 to SHM_NODE_MAP_SZ
      invariant segment[0] == count
      invariant forall k :: 1 <= k <= count ==> segment[k] == nodes[k - 1]
      invariant forall k :: count < k < j ==> segment[k] == -1
    {
      segment[j] := -1;
    }
  }

  ghost predicate Segments(segments: seq<array<int>>)
    reads segments
  {
    && |segments| == CONSUMERS
    && (forall i :: 0 <= i < CONSUMERS ==> segments[i].Length == SHM_NODE_MAP_SZ)
    && (forall i, j :: 0 <= i < j < CONSUMERS ==> segments[i] != segments[j])
  }

  // The consecutive slice that consumer c gets.
  function Slice(nodes: seq<nat>, c: nat): seq<nat>
    requires c < CONSUMERS
  {
    CutsInside(|nodes|, c);
    nodes[Cut(|nodes|, c)..Cut(|nodes|, c + 1)]
  }

  /** Deal the new nodes out: consumer c gets the consecutive slice between cuts c and c + 1, and
      nothing is left over. */
  method MapNodesToCons(newNodes: seq<nat>, segments: seq<array<int>>) returns (left: seq<nat>)
    requires Segments(segments) && |newNodes| < CONSUMERS * (SHM_NODE_MAP_SZ - 1)
    modifies segments
    ensures left == []
    ensures forall c :: 0 <= c < CONSUMERS ==> Holds(segments[c][..], Slice(newNodes, c))
  {
    var n := |newNodes|;
    var perCons := n / 10;
    var rem := n - 10 * perCons;
    CutEnds(n);
    hide Cut, Holds;
    left := newNodes;
    for i := 0 to 10
      invariant Cut(n, i) <= n && left == newNodes[Cut(n, i)..]
      invariant forall c :: 0 <= c < i ==> Holds(segments[c][..], Slice(newNodes, c))
    {
      CutNext(n, i);
      CutsInside(n, i);
      var count := if i < rem then perCons + 1 else perCons;
      WriteSegment(segments[i], left, count);
      assert left[..count] == Slice(newNodes, i);
      left := left[count..];
    }
  }

  lemma {:induction false} CutsInside(n: nat, c: nat)
    requires c < CONSUMERS
    ensures Cut(n, c) <= Cut(n, c + 1) <= n
  {
    hide Cut;
    CutEnds(n);
    CutRises(n, c, c + 1);
    CutRises(n, c + 1, CONSUMERS);
  }

  lemma {:induction false} SliceIsShare(first: nat, n: nat, c: nat)
    requires c < CONSUMERS
    ensures Slice(Range(first, first + n), c) == Share(first, n, c)
  {
    hide Cut, Range;
    CutsInside(n, c);
    RangeIs(first, first + n);
    RangeIs(first + Cut(n, c), first + Cut(n, c + 1));
  }

  // ---------- degrees ----------

  // In how many edges v occurs; an edge from v to itself counts once.
  function DegreeOf(es: seq<(nat, nat)>, v: nat): nat {
    if es == [] then 0
    else var e := es[|es| - 1];
         DegreeOf(es[..|es| - 1], v) + if e.0 == v || e.1 == v then 1 else 0
  }

  // The degrees of nodes 0..n-1 together.
  function DegreeSum(es: seq<(nat, nat)>, n: nat): nat {
    if n == 0 then 0 else DegreeSum(es, n - 1) + DegreeOf(es, n - 1)
  }

  function Loops(es: seq<(nat, nat)>): nat {
    if es == [] then 0
    else var e := es[|es| - 1];
         Loops(es[..|es| - 1]) + if e.0 == e.1 then 1 else 0
  }

  lemma {:induction false} SumOneMore(es: seq<(nat, nat)>, n: nat)
    requires es != []
    ensures var e := es[|es| - 1];
            DegreeSum(es, n) == DegreeSum(es[..|es| - 1], n) + (if e.0 < n then 1 else 0) + (if e.1 < n && e.1 != e.0 then 1 else 0)
  {
    if n > 0 {
      SumOneMore(es, n - 1);
    }
  }

  /** degree_sum is twice the number of edges, less those from a node to itself. */
  lemma {:induction false} DegreesSum(es: seq<(nat, nat)>, n: nat)
    requires EdgesBelow(es, n)
    ensures DegreeSum(es, n) + Loops(es) == 2 * |es|
  {
    if es == [] {
      NoDegrees(n);
    } else {
      DegreesSum(es[..|es| - 1], n);
      SumOneMore(es, n);
    }
  }

  lemma {:induction false} NoDegrees(n: nat)
    ensures DegreeSum([], n) == 0
  {
    if n > 0 {
      NoDegrees(n - 1);
    }
  }

  predicate Touches(es: seq<(nat, nat)>, v: nat, i: nat) {
    i < |es| && (es[i].0 == v || es[i].1 == v)
  }

  // The edges, by position, in which v occurs.
  function EdgesOf(es: seq<(nat, nat)>, v: nat): set<nat> {
    set i: nat | i < |es| && Touches(es, v, i)
  }

  lemma {:induction false} DegreeCounts(es: seq<(nat, nat)>, v: nat)
    ensures DegreeOf(es, v) == |EdgesOf(es, v)|
  {
    if es == [] {
      assert EdgesOf(es, v) == {};
    } else {
      var k := |es| - 1;
      DegreeCounts(es[..k], v);
      assert forall i :: 0 <= i < k ==> (Touches(es, v, i) <==> Touches(es[..k], v, i));
      assert EdgesOf(es, v) == EdgesOf(es[..k], v) + if Touches(es, v, k) then {k} else {};
    }
  }

  /** The first two loops of calc_degree. */
  method CountDegrees(edges: seq<(nat, nat)>, n: nat) returns (degree: array<nat>)
    requires EdgesBelow(edges, n)
    ensures fresh(degree) && degree.Length == n && forall v :: 0 <= v < n ==> degree[v] == DegreeOf(edges, v) == |EdgesOf(edges, v)|
  {
    degree := new nat[n];
    for i := 0 to n
      invariant forall v :: 0 <= v < i ==> degree[v] == 0
    {
      degree[i] := 0;
    }
    for i := 0 to |edges|
      invariant forall v :: 0 <= v < n ==> degree[v] == DegreeOf(edges[..i], v)
    {
      var e := edges[i];
      assert edges[..i + 1][..i] == edges[..i];
      degree[e.0] := degree[e.0] + 1;
      if e.0 != e.1 {
        degree[e.1] := degree[e.1] + 1;
      }
    }
    assert edges[..|edges|] == edges;
    forall v | 0 <= v < n ensures DegreeOf(edges, v) == |EdgesOf(edges, v)| {
      DegreeCounts(edges, v);
    }
  }

  // ---------- a round ----------

  // The edges that join new node v to the existing nodes chosen for it.
  function EdgesTo(v: nat, chosen: seq<nat>): seq<(nat, nat)> {
    if chosen == [] then [] else EdgesTo(v, chosen[..|chosen| - 1]) + [(v, chosen[|chosen| - 1])]
  }

  function NewEdges(first: nat, choices: seq<seq<nat>>): seq<(nat, nat)> {
    if choices == [] then []
    else var k := |choices| - 1;
         NewEdges(first, choices[..k]) + EdgesTo(first + k, choices[k])
  }

  // All chosen nodes exist already.
  predicate Existing(first: nat, choices: seq<seq<nat>>) {
    forall i, v :: 0 <= i < |choices| && v in choices[i] ==> v < first
  }

  lemma {:induction false} EdgesToJoin(v: nat, chosen: seq<nat>)
    ensures forall e :: e in EdgesTo(v, chosen) ==> e.0 == v && e.1 in chosen
  {
    if chosen != [] {
      EdgesToJoin(v, chosen[..|chosen| - 1]);
    }
  }

  // How often x is in s.
  function Times<T(==)>(s: seq<T>, x: T): nat {
    if s == [] then 0 else Times(s[..|s| - 1], x) + if s[|s| - 1] == x then 1 else 0
  }

  lemma {:induction false} TimesJoin<T>(a: seq<T>, b: seq<T>, x: T)
    ensures Times(a + b, x) == Times(a, x) + Times(b, x)
    decreases |b|
  {
    if b == [] {
      assert a + b == a;
    } else {
      assert (a + b)[..|a + b| - 1] == a + b[..|b| - 1];
      TimesJoin(a, b[..|b| - 1], x);
    }
  }

  lemma {:induction false} EdgesToCount(u: nat, chosen: seq<nat>, w: nat, v: nat)
    ensures Times<(nat, nat)>(EdgesTo(u, chosen), (w, v)) == if u == w then Times<nat>(chosen, v) else 0
  {
    if chosen != [] {
      EdgesToCount(u, chosen[..|chosen| - 1], w, v);
    }
  }

  /** New node first + i has as many edges to v as v was drawn for it. */
  lemma {:induction false} NewEdgesCount(first: nat, choices: seq<seq<nat>>, i: nat, v: nat)
    ensures Times<(nat, nat)>(NewEdges(first, choices), (first + i, v)) == if i < |choices| then Times<nat>(choices[i], v) else 0
  {
    hide EdgesTo, Times;
    if choices == [] {
      NoTimes<(nat, nat)>((first + i, v));
    } else {
      var k: nat := |choices| - 1;
      NewEdgesCount(first, choices[..k], i, v);
      EdgesToCount(first + k, choices[k], first + i, v);
      TimesJoin<(nat, nat)>(NewEdges(first, choices[..k]), EdgesTo(first + k, choices[k]), (first + i, v));
    }
  }

  lemma {:induction false} NoTimes<T>(x: T)
    ensures Times([], x) == 0
  {
  }

  /** Every new edge joins a new node to an older one. */
  lemma {:induction false} NewEdgesJoin(first: nat, choices: seq<seq<nat>>)
    requires Existing(first, choices)
    ensures forall e :: e in NewEdges(first, choices) ==> first <= e.0 < first + |choices| && e.1 < first
  {
    if choices != [] {
      var k := |choices| - 1;
      NewEdgesJoin(first, choices[..k]);
      EdgesToJoin(first + k, choices[k]);
    }
  }

  lemma {:induction false} RangeDistinct(a: nat, b: nat)
    ensures Distinct(Range(a, b))
  {
    hide Range;
    RangeIs(a, b);
  }

  /** So what each consumer finds after the producer's round is an update as it expects: it may only
      add nodes, edges with a new end, and new nodes to map. */
  lemma {:induction false} RoundIsUpdate(nodes: nat, edges: seq<(nat, nat)>, choices: seq<seq<nat>>, c: nat)
    requires c < CONSUMERS && EdgesBelow(edges, nodes) && Existing(nodes, choices) && nodes + |choices| <= MAX_NODES
    ensures UpdateOk(nodes, edges, Update(nodes + |choices|, edges + NewEdges(nodes, choices), Share(nodes, |choices|, c)))
  {
    hide Cut, Range, NewEdges, Existing, Distinct;
    var n := |choices|;
    NewEdgesJoin(nodes, choices);
    var all := edges + NewEdges(nodes, choices);
    assert forall k :: |edges| <= k < |all| ==> all[k] in NewEdges(nodes, choices);
    CutsInside(n, c);
    RangeIs(nodes + Cut(n, c), nodes + Cut(n, c + 1));
    RangeDistinct(nodes + Cut(n, c), nodes + Cut(n, c + 1));
  }

  // The first count edges of the two arrays.
  ghost function EdgeList(a: seq<nat>, b: seq<nat>, count: nat): seq<(nat, nat)>
    requires 2 + count <= |a| == |b|
  {
    if count == 0 then [] else EdgeList(a, b, count - 1) + [(a[1 + count], b[1 + count])]
  }

  lemma {:induction false} EdgeListSame(a: seq<nat>, b: seq<nat>, a': seq<nat>, b': seq<nat>, count: nat)
    requires 2 + count <= |a| == |b| == |a'| == |b'|
    requires a[2..2 + count] == a'[2..2 + count] && b[2..2 + count] == b'[2..2 + count]
    ensures EdgeList(a, b, count) == EdgeList(a', b', count)
  {
    if count > 0 {
      assert a[2..2 + count - 1] == a[2..2 + count][..count - 1];
      assert b[2..2 + count - 1] == b[2..2 + count][..count - 1];
      assert a'[2..2 + count - 1] == a'[2..2 + count][..count - 1];
      assert b'[2..2 + count - 1] == b'[2..2 + count][..count - 1];
      EdgeListSame(a, b, a', b', count - 1);
      assert a[1 + count] == a[2..2 + count][count - 1];
      assert b[1 + count] == b[2..2 + count][count - 1];
    }
  }

  lemma {:induction false} RangeNext(a: nat, b: nat)
    requires a <= b
    ensures Range(a, b + 1) == Range(a, b) + [b]
  {
  }

  lemma {:induction false} EdgesToNext(v: nat, chosen: seq<nat>, i: nat)
    requires i < |chosen|
    ensures EdgesTo(v, chosen[..i + 1]) == EdgesTo(v, chosen[..i]) + [(v, chosen[i])]
  {
    assert chosen[..i + 1][..i] == chosen[..i];
  }

  lemma {:induction false} NewEdgesNext(first: nat, choices: seq<seq<nat>>, i: nat)
    requires i < |choices|
    ensures NewEdges(first, choices[..i + 1]) == NewEdges(first, choices[..i]) + EdgesTo(first + i, choices[i])
  {
    assert choices[..i + 1][..i] == choices[..i];
  }

  /** The nodes and edges that a round adds. choices[i] are the existing nodes drawn for new node i. */
  method Draw(first: nat, choices: seq<seq<nat>>) returns (newNodes: seq<nat>, newEdges: seq<(nat, nat)>)
    ensures newNodes == Range(first, first + |choices|) && newEdges == NewEdges(first, choices)
    ensures |newNodes| == |choices| && forall i :: 0 <= i < |choices| ==> newNodes[i] == first + i
    ensures forall i: nat, v: nat :: i < |choices| ==> Times<(nat, nat)>(newEdges, (first + i, v)) == Times<nat>(choices[i], v)
    ensures forall e :: e in newEdges ==> first <= e.0 < first + |choices|
  {
    hide Range, EdgesTo, NewEdges;
    newNodes, newEdges := [], [];
    StartEmpty(first, choices);
    for i := 0 to |choices|
      invariant newNodes == Range(first, first + i) && newEdges == NewEdges(first, choices[..i])
    {
      RangeNext(first, first + i);
      NewEdgesNext(first, choices, i);
      newNodes := newNodes + [first + i];
      var chosen := choices[i];
      ghost var before := newEdges;
      StartNone(first + i, chosen);
      for j := 0 to |chosen|
        invariant newEdges == before + EdgesTo(first + i, chosen[..j])
      {
        EdgesToNext(first + i, chosen, j);
        newEdges := newEdges + [(first + i, chosen[j])];
      }
      assert chosen[..|chosen|] == chosen;
    }
    assert choices[..|choices|] == choices;
    RangeIs(first, first + |choices|);
    NewEdgesFrom(first, choices);
    forall i: nat, v: nat | i < |choices| ensures Times<(nat, nat)>(newEdges, (first + i, v)) == Times<nat>(choices[i], v) {
      NewEdgesCount(first, choices, i, v);
    }
  }

  lemma {:induction false} NewEdgesFrom(first: nat, choices: seq<seq<nat>>)
    ensures forall e :: e in NewEdges(first, choices) ==> first <= e.0 < first + |choices|
  {
    if choices != [] {
      var k := |choices| - 1;
      NewEdgesFrom(first, choices[..k]);
      EdgesToJoin(first + k, choices[k]);
    }
  }

  lemma {:induction false} StartEmpty(first: nat, choices: seq<seq<nat>>)
    ensures Range(first, first) == [] && NewEdges(first, choices[..0]) == []
  {
  }

  lemma {:induction false} StartNone(v: nat, chosen: seq<nat>)
    ensures EdgesTo(v, chosen[..0]) == []
  {
  }

  /** The graph as it lies in shared memory, and the segments of the consumers. */
  class Board {
    const shm1: array<nat>
    const shm2: array<nat>
    const segments: seq<array<int>>

    constructor (shm1: array<nat>, shm2: array<nat>, segments: seq<array<int>>)
      ensures this.shm1 == shm1 && this.shm2 == shm2 && this.segments == segments
    {
      this.shm1, this.shm2, this.segments := shm1, shm2, segments;
    }

    ghost predicate Valid()
      reads shm1, shm2, segments
    {
      && shm1.Length == shm2.Length == SHM_EDGE_SZ && shm1 != shm2
      && 2 + shm1[1] <= SHM_EDGE_SZ && shm1[0] == shm2[0] && shm1[1] == shm2[1]
      && Segments(segments)
    }

    ghost function Nodes(): nat
      requires Valid()
      reads shm1, shm2, segments
    {
      shm1[0]
    }

    ghost function Edges(): seq<(nat, nat)>
      requires Valid()
      reads shm1, shm2, segments
    {
      EdgeList(shm1[..], shm2[..], shm1[1])
    }

    // Write the new edges behind the old ones.
    method AppendEdges(newEdges: seq<(nat, nat)>)
      requires Valid() && 2 + shm1[1] + |newEdges| <= SHM_EDGE_SZ
      modifies shm1, shm2
      ensures Valid() && shm1[0] == old(shm1[0]) && shm1[1] == old(shm1[1])
      ensures EdgeList(shm1[..], shm2[..], shm1[1] + |newEdges|) == old(Edges()) + newEdges
    {
      hide EdgeList;
      var numEdges := shm1[1];
      ghost var edges := Edges();
      for i := 0 to |newEdges|
        invariant Valid() && shm1[0] == old(shm1[0]) && shm1[1] == numEdges
        invariant EdgeList(shm1[..], shm2[..], numEdges + i) == edges + newEdges[..i]
      {
        ghost var a, b := shm1[..], shm2[..];
        shm1[2 + numEdges + i] := newEdges[i].0;
        shm2[2 + numEdges + i] := newEdges[i].1;
        OneEdgeMore(a, b, shm1[..], shm2[..], numEdges + i);
        assert edges + newEdges[..i] + [newEdges[i]] == edges + newEdges[..i + 1];
      }
      assert newEdges[..|newEdges|] == newEdges;
    }

    /** The body of the loop in main: draw, append, publish, deal out. */
    method Round(choices: seq<seq<nat>>)
      requires Valid() && |choices| < CONSUMERS * (SHM_NODE_MAP_SZ - 1)
      requires 2 + |Edges()| + |NewEdges(Nodes(), choices)| <= SHM_EDGE_SZ
      modifies shm1, shm2, segments
      ensures Valid() && Nodes() == old(Nodes()) + |choices|
      ensures Edges() == old(Edges()) + NewEdges(old(Nodes()), choices)
      ensures forall c :: 0 <= c < CONSUMERS ==> Holds(segments[c][..], Share(old(Nodes()), |choices|, c))
    {
      hide EdgeList, NewEdges, Range, Cut, Holds, Slice, Share;
      var numNodes, numEdges := shm1[0], shm1[1];
      EdgeCount(shm1[..], shm2[..], numEdges);
      var newNodes, newEdges := Draw(numNodes, choices);
      AppendEdges(newEdges);
      ghost var a, b := shm1[..], shm2[..];
      shm1[0] := numNodes + |choices|;
      shm2[0] := numNodes + |choices|;
      shm1[1] := numEdges + |newEdges|;
      shm2[1] := numEdges + |newEdges|;
      EdgeListSame(a, b, shm1[..], shm2[..], numEdges + |newEdges|);
      RangeIs(numNodes, numNodes + |choices|);
      var left := MapNodesToCons(newNodes, segments);
      forall c: nat | c < CONSUMERS ensures Holds(segments[c][..], Share(numNodes, |choices|, c)) {
        SliceIsShare(numNodes, |choices|, c);
      }
    }
  }

  lemma {:induction false} EdgeCount(a: seq<nat>, b: seq<nat>, count: nat)
    requires 2 + count <= |a| == |b|
    ensures |EdgeList(a, b, count)| == count
  {
    if count > 0 {
      EdgeCount(a, b, count - 1);
    }
  }

  lemma {:induction false} OneEdgeMore(a: seq<nat>, b: seq<nat>, a': seq<nat>, b': seq<nat>, count: nat)
    requires 2 + count < |a| == |b| == |a'| == |b'|
    requires a[..2 + count] == a'[..2 + count] && b[..2 + count] == b'[..2 + count]
    ensures EdgeList(a', b', count + 1) == EdgeList(a, b, count) + [(a'[2 + count], b'[2 + count])]
  {
    assert a[2..2 + count] == a[..2 + count][2..] == a'[2..2 + count];
    assert b[2..2 + count] == b[..2 + count][2..] == b'[2..2 + count];
    EdgeListSame(a, b, a', b', count);
  }
}
