/** Producer and consumers together: the producer grows the graph in shared memory, and each consumer
    reads from there what it maps and patches. */
module Together {
  import opened Graph
  import opened Patch
  import opened Consumer
  import opened Producer

  // What the producer draws: in each round, for each new node, the existing nodes it is joined to.
  type Rounds = seq<seq<seq<nat>>>

  function NodesAfter(n: nat, rounds: Rounds): nat {
    if rounds == [] then n else NodesAfter(n, rounds[..|rounds| - 1]) + |rounds[|rounds| - 1]|
  }

  function EdgesAfter(n: nat, edges: seq<(nat, nat)>, rounds: Rounds): seq<(nat, nat)> {
    if rounds == [] then edges
    else var earlier := rounds[..|rounds| - 1];
         EdgesAfter(n, edges, earlier) + NewEdges(NodesAfter(n, earlier), rounds[|rounds| - 1])
  }

  // How many nodes came at the start and in each round.
  function Counts(n: nat, rounds: Rounds): seq<nat> {
    if rounds == [] then [n] else Counts(n, rounds[..|rounds| - 1]) + [|rounds[|rounds| - 1]|]
  }

  // Every round draws existing nodes only and fits into shared memory.
  ghost predicate RoundsOk(n: nat, edges: seq<(nat, nat)>, rounds: Rounds) {
    if rounds == [] then
      n <= MAX_NODES && EdgesBelow(edges, n) && 2 + |edges| <= SHM_EDGE_SZ
    else
      var earlier, last := rounds[..|rounds| - 1], rounds[|rounds| - 1];
      && RoundsOk(n, edges, earlier) && Existing(NodesAfter(n, earlier), last)
      && NodesAfter(n, rounds) <= MAX_NODES && |last| < CONSUMERS * (SHM_NODE_MAP_SZ - 1)
      && 2 + |EdgesAfter(n, edges, rounds)| <= SHM_EDGE_SZ
  }

  lemma {:induction false} EarlierRoundsOk(n: nat, edges: seq<(nat, nat)>, rounds: Rounds, k: nat)
    requires RoundsOk(n, edges, rounds) && k <= |rounds|
    ensures RoundsOk(n, edges, rounds[..k])
    decreases |rounds|
  {
    if k < |rounds| {
      EarlierRoundsOk(n, edges, rounds[..|rounds| - 1], k);
      assert rounds[..|rounds| - 1][..k] == rounds[..k];
    } else {
      assert rounds[..k] == rounds;
    }
  }

  // One more round, from what the earlier ones left.
  lemma {:induction false} NextRound(n: nat, edges: seq<(nat, nat)>, rounds: Rounds, k: nat)
    requires RoundsOk(n, edges, rounds) && k < |rounds|
    ensures var m, es, r := NodesAfter(n, rounds[..k]), EdgesAfter(n, edges, rounds[..k]), rounds[k];
            && NodesAfter(n, rounds[..k + 1]) == m + |r| <= MAX_NODES
            && EdgesAfter(n, edges, rounds[..k + 1]) == es + NewEdges(m, r)
            && Existing(m, r) && |r| < CONSUMERS * (SHM_NODE_MAP_SZ - 1) && 2 + |es| + |NewEdges(m, r)| <= SHM_EDGE_SZ
            && forall c :: MappedTo(Counts(n, rounds[..k + 1]), c) == MappedTo(Counts(n, rounds[..k]), c) + Share(m, |r|, c)
  {
    hide Existing, NewEdges, Share, EdgesBelow, MappedTo, Counts;
    EarlierRoundsOk(n, edges, rounds, k + 1);
    var upTo, r := rounds[..k + 1], rounds[k];
    assert upTo[..k] == rounds[..k] && upTo[k] == r;
    forall c ensures MappedTo(Counts(n, upTo), c) == MappedTo(Counts(n, rounds[..k]), c) + Share(NodesAfter(n, rounds[..k]), |r|, c) {
      MapsMore(n, upTo, c);
    }
  }

  // A round adds its share to what a consumer maps.
  lemma {:induction false} MapsMore(n: nat, rounds: Rounds, c: nat)
    requires rounds != []
    ensures var earlier, last := rounds[..|rounds| - 1], rounds[|rounds| - 1];
            MappedTo(Counts(n, rounds), c) == MappedTo(Counts(n, earlier), c) + Share(NodesAfter(n, earlier), |last|, c)
  {
    hide Share, NodesAfter;
    var earlier := rounds[..|rounds| - 1];
    CountsSum(n, earlier);
    var counts := Counts(n, earlier);
    assert (counts + [|rounds[|rounds| - 1]|])[..|counts|] == counts;
  }

  lemma {:induction false} CountsSum(n: nat, rounds: Rounds)
    ensures Producer.Sum(Counts(n, rounds)) == NodesAfter(n, rounds)
  {
    if rounds == [] {
      assert [n][..0] == [];
    } else {
      var earlier, last := rounds[..|rounds| - 1], |rounds[|rounds| - 1]|;
      CountsSum(n, earlier);
      var counts := Counts(n, earlier);
      assert (counts + [last])[..|counts|] == counts;
    }
  }

  lemma {:induction false} EdgesStayBelow(n: nat, edges: seq<(nat, nat)>, rounds: Rounds)
    requires RoundsOk(n, edges, rounds)
    ensures EdgesBelow(EdgesAfter(n, edges, rounds), NodesAfter(n, rounds))
  {
    if rounds != [] {
      var earlier, last := rounds[..|rounds| - 1], rounds[|rounds| - 1];
      EdgesStayBelow(n, edges, earlier);
      NewEdgesJoin(NodesAfter(n, earlier), last);
      var es, more := EdgesAfter(n, edges, earlier), NewEdges(NodesAfter(n, earlier), last);
      assert forall k :: 0 <= k < |more| ==> more[k] in more;
    }
  }

  // ---------- reading shared memory ----------

  method ReadEdges(b: Board) returns (edges: seq<(nat, nat)>)
    requires b.Valid()
    ensures edges == b.Edges()
  {
    var count := b.shm1[1];
    edges := [];
    for i := 0 to count
      invariant edges == EdgeList(b.shm1[..], b.shm2[..], i)
    {
      edges := edges + [(b.shm1[2 + i], b.shm2[2 + i])];
    }
  }

  /** What consumer c finds in shared memory: the graph, and the nodes it is to map. */
  method ReadUpdate(b: Board, c: nat, ghost share: seq<nat>) returns (up: Update)
    requires b.Valid() && c < CONSUMERS && Holds(b.segments[c][..], share)
    ensures up == Update(b.Nodes(), b.Edges(), share)
  {
    hide Holds;
    var edges := ReadEdges(b);
    var mapped := ReadSegment(b.segments[c], share);
    up := Update(b.shm1[0], edges, mapped);
  }

  // ---------- the whole run ----------

  /** Main result. A consumer starts from the graph in shared memory, maps its share and computes its
      rows; then the producer adds rounds of nodes, and after each the consumer takes the update. In the
      end it has mapped exactly its shares of all rounds, and the row of each of these nodes holds the
      true distances in the graph that then lies in shared memory. */
  method WholeRun(b: Board, c: nat, rounds: Rounds) returns (p: Process)
    requires b.Valid() && c < CONSUMERS && RoundsOk(b.Nodes(), b.Edges(), rounds)
    modifies b.shm1, b.shm2, b.segments
    ensures fresh(p) && p.Valid() && p.Exact() && b.Valid()
    ensures p.numNodes == b.Nodes() == NodesAfter(old(b.Nodes()), rounds)
    ensures p.edges == b.Edges() == EdgesAfter(old(b.Nodes()), old(b.Edges()), rounds)
    ensures p.mapped == MappedTo(Counts(old(b.Nodes()), rounds), c)
  {
    hide RoundsOk, EdgesAfter, NodesAfter, Counts, MappedTo, EdgeList, Segments;
    ghost var n0, e0 := b.Nodes(), b.Edges();
    p := StartConsumer(b, c, rounds);
    var k := 0;
    while k < |rounds|
      invariant k <= |rounds| && b.Valid() && p.Valid() && p.Exact() && fresh(p)
      invariant p.numNodes == b.Nodes() == NodesAfter(n0, rounds[..k])
      invariant p.edges == b.Edges() == EdgesAfter(n0, e0, rounds[..k])
      invariant p.mapped == MappedTo(Counts(n0, rounds[..k]), c)
    {
      hide MappedTo, RoundsOk;
      NextRound(n0, e0, rounds, k);
      OneRound(b, p, c, rounds[k]);
      k := k + 1;
    }
    assert rounds[..|rounds|] == rounds;
  }

  /** The producer's round, and then one turn of the consumer's loop. */
  method OneRound(b: Board, p: Process, c: nat, choices: seq<seq<nat>>)
    requires b.Valid() && p.Valid() && p.Exact() && c < CONSUMERS && p.numNodes == b.Nodes() && p.edges == b.Edges()
    requires Existing(b.Nodes(), choices) && b.Nodes() + |choices| <= MAX_NODES && |choices| < CONSUMERS * (SHM_NODE_MAP_SZ - 1)
    requires 2 + |b.Edges()| + |NewEdges(b.Nodes(), choices)| <= SHM_EDGE_SZ
    modifies p, b.shm1, b.shm2, b.segments
    ensures b.Valid() && p.Valid() && p.Exact()
    ensures p.numNodes == b.Nodes() == old(b.Nodes()) + |choices|
    ensures p.edges == b.Edges() == old(b.Edges()) + NewEdges(old(b.Nodes()), choices)
    ensures p.mapped == old(p.mapped) + Share(old(b.Nodes()), |choices|, c)
  {
    ghost var n, edges := b.Nodes(), b.Edges();
    StateInRange(p.numNodes, p.edges, p.adj, p.mapped, p.table);
    hide StateOk, RowsExact, NewEdges, Existing, Share, Holds, EdgeList, UpdateOk, Segments;
    RoundIsUpdate(n, edges, choices, c);
    b.Round(choices);
    ConsumerTurn(b, p, c, Share(n, |choices|, c));
  }

  /** One turn of the consumer's loop. */
  method ConsumerTurn(b: Board, p: Process, c: nat, ghost share: seq<nat>)
    requires b.Valid() && p.Valid() && p.Exact() && c < CONSUMERS && Holds(b.segments[c][..], share)
    requires UpdateOk(p.numNodes, p.edges, Update(b.Nodes(), b.Edges(), share))
    modifies p
    ensures p.Valid() && p.Exact() && p.numNodes == b.Nodes() && p.edges == b.Edges() && p.mapped == old(p.mapped) + share
  {
    hide StateOk, RowsExact, Holds, EdgeList, UpdateOk, Segments, AllPatched, Searched, LinesOk, AllSafe;
    var up := ReadUpdate(b, c, share);
    var _, _ := p.Round(Intended, up);
  }

  lemma {:induction false} StateInRange(nodes: nat, edges: seq<(nat, nat)>, g: Adjacency, sources: seq<nat>, t: Table)
    requires StateOk(nodes, edges, g, sources, t)
    ensures EdgesBelow(edges, nodes)
  {
  }

  /** main up to its loop: the graph as it is, the share of it, and the first rows. */
  method StartConsumer(b: Board, c: nat, ghost rounds: Rounds) returns (p: Process)
    requires b.Valid() && c < CONSUMERS && RoundsOk(b.Nodes(), b.Edges(), rounds)
    ensures fresh(p) && p.Valid() && p.Exact() && p.numNodes == b.Nodes() && p.edges == b.Edges()
    ensures p.mapped == MappedTo(Counts(b.Nodes(), rounds[..0]), c)
    ensures NodesAfter(b.Nodes(), rounds[..0]) == b.Nodes() && EdgesAfter(b.Nodes(), b.Edges(), rounds[..0]) == b.Edges()
  {
    EarlierRoundsOk(b.Nodes(), b.Edges(), rounds, 0);
    hide EdgeList, Segments;
    var n := b.shm1[0];
    var edges := ReadEdges(b);
    var mapped := MapInitialNodes(n, c);
    FirstUpdate(n, edges, c);
    p := new Process(Update(n, edges, mapped));
    p.ComputeInitialRows();
  }

  lemma {:induction false} FirstUpdate(n: nat, edges: seq<(nat, nat)>, c: nat)
    requires n <= MAX_NODES && EdgesBelow(edges, n) && c < CONSUMERS
    ensures UpdateOk(0, [], Update(n, edges, Share(0, n, c)))
    ensures MappedTo([n], c) == Share(0, n, c)
  {
    hide Cut, Range;
    RangeIs(0 + Cut(n, c), 0 + Cut(n, c + 1));
    RangeDistinct(0 + Cut(n, c), 0 + Cut(n, c + 1));
    CutsInside(n, c);
    assert [n][..0] == [];
    assert [] + Share(0, n, c) == Share(0, n, c);
  }

  // ---------- the producer's side alone ----------

  // The updates that consumer c finds, round by round.
  function Ups(n: nat, edges: seq<(nat, nat)>, rounds: Rounds, c: nat): seq<Update> {
    if rounds == [] then []
    else var earlier, last := rounds[..|rounds| - 1], rounds[|rounds| - 1];
         Ups(n, edges, earlier, c) + [Update(NodesAfter(n, rounds), EdgesAfter(n, edges, rounds), Share(NodesAfter(n, earlier), |last|, c))]
  }

  lemma {:induction false} UpdatesMore(nodes: nat, edges: seq<(nat, nat)>, ups: seq<Update>, up: Update)
    requires UpdatesOk(nodes, edges, ups)
    requires if ups == [] then UpdateOk(nodes, edges, up) else UpdateOk(ups[|ups| - 1].nodes, ups[|ups| - 1].edges, up)
    ensures UpdatesOk(nodes, edges, ups + [up])
    decreases |ups|
  {
    hide UpdateOk;
    if ups == [] {
      assert (ups + [up])[1..] == [];
    } else {
      UpdatesMore(ups[0].nodes, ups[0].edges, ups[1..], up);
      assert (ups + [up])[1..] == ups[1..] + [up];
    }
  }

  /** Any number of producer rounds give each consumer a sequence of updates as RunRounds and
      RunAsWritten ask for, and the nodes they map are that consumer's shares. */
  lemma {:induction false} RoundsAreUpdates(n: nat, edges: seq<(nat, nat)>, rounds: Rounds, c: nat)
    requires RoundsOk(n, edges, rounds) && c < CONSUMERS
    ensures var ups := Ups(n, edges, rounds, c);
            && |ups| == |rounds| && UpdatesOk(n, edges, ups)
            && (ups != [] ==> ups[|ups| - 1].nodes == NodesAfter(n, rounds) && ups[|ups| - 1].edges == EdgesAfter(n, edges, rounds))
            && Share(0, n, c) + MappedBy(ups) == MappedTo(Counts(n, rounds), c)
  {
    hide RoundsOk, Share, UpdatesOk, Ups, MappedBy, MappedTo, Counts, NodesAfter, EdgesAfter;
    UpsEnd(n, edges, rounds, c);
    UpsAreUpdates(n, edges, rounds, c);
    UpsMap(n, edges, rounds, c);
  }

  // The last update.
  lemma {:induction false} UpsStep(n: nat, edges: seq<(nat, nat)>, rounds: Rounds, c: nat)
    requires RoundsOk(n, edges, rounds) && c < CONSUMERS && rounds != []
    ensures var earlier, last := rounds[..|rounds| - 1], rounds[|rounds| - 1];
            && RoundsOk(n, edges, earlier)
            && Ups(n, edges, rounds, c) == Ups(n, edges, earlier, c)
                 + [Update(NodesAfter(n, rounds), EdgesAfter(n, edges, rounds), Share(NodesAfter(n, earlier), |last|, c))]
  {
    hide NodesAfter, EdgesAfter, Share, Existing;
  }

  lemma {:induction false} UpsEnd(n: nat, edges: seq<(nat, nat)>, rounds: Rounds, c: nat)
    requires RoundsOk(n, edges, rounds) && c < CONSUMERS
    ensures var ups := Ups(n, edges, rounds, c);
            && |ups| == |rounds|
            && (ups != [] ==> ups[|ups| - 1].nodes == NodesAfter(n, rounds) && ups[|ups| - 1].edges == EdgesAfter(n, edges, rounds))
  {
    hide NodesAfter, EdgesAfter, Share, RoundsOk;
    if rounds != [] {
      UpsStep(n, edges, rounds, c);
      UpsEnd(n, edges, rounds[..|rounds| - 1], c);
    }
  }

  lemma {:induction false} UpsAreUpdates(n: nat, edges: seq<(nat, nat)>, rounds: Rounds, c: nat)
    requires RoundsOk(n, edges, rounds) && c < CONSUMERS
    ensures UpdatesOk(n, edges, Ups(n, edges, rounds, c))
  {
    if rounds == [] {
      hide UpdateOk;
    } else {
      hide Share, UpdateOk, UpdatesOk, RoundsOk, Ups, NodesAfter, EdgesAfter;
      UpsStep(n, edges, rounds, c);
      UpsAreUpdates(n, edges, rounds[..|rounds| - 1], c);
      UpsEnd(n, edges, rounds[..|rounds| - 1], c);
      LastRound(n, edges, rounds, c);
      LastUpdateOk(n, edges, rounds[..|rounds| - 1], c, Ups(n, edges, rounds, c)[|rounds| - 1]);
    }
  }

  lemma {:induction false} LastRound(n: nat, edges: seq<(nat, nat)>, rounds: Rounds, c: nat)
    requires RoundsOk(n, edges, rounds) && c < CONSUMERS && rounds != []
    ensures var earlier, last := rounds[..|rounds| - 1], rounds[|rounds| - 1];
            UpdateOk(NodesAfter(n, earlier), EdgesAfter(n, edges, earlier),
                     Update(NodesAfter(n, rounds), EdgesAfter(n, edges, rounds), Share(NodesAfter(n, earlier), |last|, c)))
  {
    hide Share, UpdateOk, NewEdges, Existing, EdgesBelow;
    var earlier := rounds[..|rounds| - 1];
    EdgesStayBelow(n, edges, earlier);
    RoundIsUpdate(NodesAfter(n, earlier), EdgesAfter(n, edges, earlier), rounds[|rounds| - 1], c);
  }

  lemma {:induction false} LastUpdateOk(n: nat, edges: seq<(nat, nat)>, rounds: Rounds, c: nat, up: Update)
    requires RoundsOk(n, edges, rounds) && c < CONSUMERS && UpdatesOk(n, edges, Ups(n, edges, rounds, c))
    requires UpdateOk(NodesAfter(n, rounds), EdgesAfter(n, edges, rounds), up)
    ensures UpdatesOk(n, edges, Ups(n, edges, rounds, c) + [up])
  {
    hide UpdateOk, UpdatesOk, RoundsOk, Ups;
    UpsEnd(n, edges, rounds, c);
    UpdatesMore(n, edges, Ups(n, edges, rounds, c), up);
  }

  lemma {:induction false} UpsMap(n: nat, edges: seq<(nat, nat)>, rounds: Rounds, c: nat)
    requires RoundsOk(n, edges, rounds) && c < CONSUMERS
    ensures Share(0, n, c) + MappedBy(Ups(n, edges, rounds, c)) == MappedTo(Counts(n, rounds), c)
  {
    if rounds == [] {
      NoUpdates(n, edges, c);
    } else {
      hide Share, MappedTo, Counts, RoundsOk, Ups, MappedBy, NodesAfter, EdgesAfter;
      var earlier, last := rounds[..|rounds| - 1], rounds[|rounds| - 1];
      UpsStep(n, edges, rounds, c);
      UpsMap(n, edges, earlier, c);
      var up := Update(NodesAfter(n, rounds), EdgesAfter(n, edges, rounds), Share(NodesAfter(n, earlier), |last|, c));
      MappedMore(Share(0, n, c), Ups(n, edges, earlier, c), up);
      MapsMore(n, rounds, c);
    }
  }

  lemma {:induction false} NoUpdates(n: nat, edges: seq<(nat, nat)>, c: nat)
    requires n <= MAX_NODES && EdgesBelow(edges, n) && c < CONSUMERS
    ensures UpdatesOk(n, edges, []) && Share(0, n, c) + [] == MappedTo([n], c)
  {
    FirstUpdate(n, edges, c);
  }
}
