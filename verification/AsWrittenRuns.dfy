/** Whole runs of the incremental program as written: once a pair was patched that was not safe to
    patch, the rows are never exact again. */
module AsWrittenRuns {
  import opened Graph
  import opened Growth
  import opened Patch
  import opened Consumer

  // There is a shorter walk than d says.
  ghost predicate TooLong(g: Adjacency, m: nat, j: nat, d: int) {
    exists w :: Connects(g, w, m, j) && w.Length() < d
  }

  // The entry of the i-th mapped node and node j is wrong for good: negative, or skipped by the guard
  // that compares i with j, and too large.
  ghost predicate Spoiled(g: Adjacency, t: Table, nodes: nat, sources: seq<nat>, i: nat, j: nat) {
    && Square(t) && i < |sources| && j < nodes <= MAX_NODES && sources[i] < nodes
    && (t[sources[i]][j] < 0 || (i == j && TooLong(g, sources[i], j, t[sources[i]][j])))
  }

  ghost predicate SomeSpoiled(g: Adjacency, t: Table, nodes: nat, sources: seq<nat>) {
    exists i, j :: Spoiled(g, t, nodes, sources, i, j)
  }

  lemma {:induction false} TooLongIsNoDistance(g: Adjacency, m: nat, j: nat, d: int)
    requires TooLong(g, m, j, d)
    ensures !IsDistance(g, m, j, d)
  {
    var w :| Connects(g, w, m, j) && w.Length() < d;
  }

  lemma {:induction false} SpoiledIsInexact(g: Adjacency, t: Table, nodes: nat, sources: seq<nat>)
    requires SomeSpoiled(g, t, nodes, sources)
    ensures !RowsExact(g, nodes, t, sources)
  {
    hide IsDistance, TooLong;
    var i: nat, j: nat :| Spoiled(g, t, nodes, sources, i, j);
    var m, d := sources[i], t[sources[i]][j];
    if d < 0 {
      NegativeIsNoDistance(g, m, j, d);
    } else {
      TooLongIsNoDistance(g, m, j, d);
    }
    assert !IsDistance(g, m, j, d);
    assert !RowExact(g, nodes, t, sources[i]);
  }

  // ---------- one round ----------

  lemma {:induction false} SkippedStays(t1: Table, prev: nat, n: nat, i: nat, m: nat, j: nat)
    requires Square(t1) && m < MAX_NODES && j < MAX_NODES && prev <= n <= MAX_NODES
    ensures i == j ==> PairValue(AsWritten, t1, prev, n, i, m, j) == t1[m][j]
    ensures PairValue(AsWritten, t1, prev, n, i, m, j) <= t1[m][j]
  {
    PatchedBelow(AsWritten, t1[m][j], t1[m][prev..n], Column(t1, prev, n, j));
  }

  /** A round leaves a spoiled entry spoiled. */
  lemma {:induction false} SpoiledStays(nodes: nat, edges: seq<(nat, nat)>, g: Adjacency, sources: seq<nat>, t0: Table, up: Update,
                                       t1: Table, t2: Table, i: nat, j: nat)
    requires StateOk(nodes, edges, g, sources, t0) && UpdateOk(nodes, edges, up) && Spoiled(g, t0, nodes, sources, i, j)
    requires SameOld(t0, t1, nodes) && AllPatched(AsWritten, t1, t2, nodes, up.nodes, sources + up.mapped, |sources|)
    requires EdgesBelow(up.edges, MAX_NODES)
    ensures Spoiled(GraphOf(up.edges), t2, up.nodes, sources + up.mapped, i, j)
  {
    UpdateFacts(nodes, edges, g, sources, t0, up);
    hide GraphOf, Grows, UnitWeights, Symmetric, FitsInt, PairValue, StateOk, UpdateOk, EdgesBelow;
    var h, all, m := GraphOf(up.edges), sources + up.mapped, sources[i];
    assert all[i] == m;
    assert RowPatched(AsWritten, t1, t2, nodes, up.nodes, i, all[i]);
    SkippedStays(t1, nodes, up.nodes, i, m, j);
    if t0[m][j] >= 0 {
      var w :| Connects(g, w, m, j) && w.Length() < t0[m][j];
      OldWalkSurvives(g, h, nodes, up.nodes, w);
      assert Connects(h, w, m, j);
    }
  }

  // A skipped pair with a shorter way through a new node.
  lemma {:induction false} SkippedIsTooLong(h: Adjacency, prev: nat, n: nat, m: nat, j: nat, d: int, a: seq<int>, b: seq<int>)
    requires Detours(h, prev, n, m, j, a, b) && d <= INT_MAX
    requires exists k :: 0 <= k < |a| && d > Saturating(a[k], b[k])
    ensures TooLong(h, m, j, d)
  {
    var k :| 0 <= k < |a| && d > Saturating(a[k], b[k]);
    assert a[k] != INT_MAX && b[k] != INT_MAX;
    assert IsDistance(h, m, prev + k, a[k]) && IsDistance(h, prev + k, j, b[k]);
    var v :| Connects(h, v, m, prev + k) && v.Length() == a[k];
    var w :| Connects(h, w, prev + k, j) && w.Length() == b[k];
    AppendConnects(h, v, w, m, prev + k, j);
    assert Connects(h, Append(v, w), m, j) && Append(v, w).Length() < d;
  }

  /** A pair that is not safe to patch is spoiled by the round. */
  lemma {:induction false} UnsafeSpoils(h: Adjacency, prev: nat, n: nat, t0: Table, t1: Table, i: nat, m: nat, j: nat)
    requires Symmetric(h, n) && UnitWeights(h, n) && Searched(h, prev, n, t0, t1) && m < prev && j < prev
    requires t1[m][j] <= INT_MAX && !SafeEntry(t1, prev, n, i, m, j)
    ensures var d := PairValue(AsWritten, t1, prev, n, i, m, j); d < 0 || (i == j && TooLong(h, m, j, d))
  {
    DetoursRead(h, prev, n, t0, t1, m, j);
    var d, a, b := t1[m][j], t1[m][prev..n], Column(t1, prev, n, j);
    if i == j {
      SkippedIsTooLong(h, prev, n, m, j, d, a, b);
    } else {
      WrappedSums(d, a, b);
    }
  }

  /** So from exact rows a round that is not safe spoils some entry. */
  lemma {:induction false} UnsafeRoundSpoils(nodes: nat, edges: seq<(nat, nat)>, g: Adjacency, sources: seq<nat>, t0: Table, up: Update,
                                            t1: Table, t2: Table)
    requires StateOk(nodes, edges, g, sources, t0) && RowsExact(g, nodes, t0, sources) && UpdateOk(nodes, edges, up)
    requires EdgesBelow(up.edges, MAX_NODES) && Searched(GraphOf(up.edges), nodes, up.nodes, t0, t1)
    requires AllPatched(AsWritten, t1, t2, nodes, up.nodes, sources + up.mapped, |sources|)
    requires !AllSafe(t1, nodes, up.nodes, sources)
    ensures SomeSpoiled(GraphOf(up.edges), t2, up.nodes, sources + up.mapped)
  {
    UpdateFacts(nodes, edges, g, sources, t0, up);
    hide GraphOf, Grows, UnitWeights, Symmetric, FitsInt, PairValue, UpdateOk, EdgesBelow, SafeEntry, TooLong, IsDistance, CrossExact;
    var h, n, all := GraphOf(up.edges), up.nodes, sources + up.mapped;
    var i: nat, j: nat :| i < |sources| && j < nodes && !SafeEntry(t1, nodes, n, i, sources[i], j);
    var m := sources[i];
    assert all[i] == m;
    assert RowPatched(AsWritten, t1, t2, nodes, n, i, all[i]);
    assert RowExact(g, nodes, t0, sources[i]);
    assert t1[m][j] == t0[m][j];
    UnsafeSpoils(h, nodes, n, t0, t1, i, m, j);
    assert Spoiled(h, t2, n, all, i, j);
  }

  // ---------- whole runs ----------

  function NodesBefore(nodes: nat, ups: seq<Update>, k: nat): nat
    requires k <= |ups|
  {
    if k == 0 then nodes else ups[k - 1].nodes
  }

  // searched[k] is the table of round k between the searches and the patching: every pair that the
  // round patches is safe.
  ghost predicate SafeRound(nodes: nat, sources: seq<nat>, ups: seq<Update>, searched: seq<Table>, k: nat) {
    && k < |ups| && k < |searched|
    && AllSafe(searched[k], NodesBefore(nodes, ups, k), ups[k].nodes, sources + MappedBy(ups[..k]))
  }

  // tables[k] is the table before round k, searched[k] that after its searches.
  ghost predicate Traced(nodes: nat, sources: seq<nat>, ups: seq<Update>, tables: seq<Table>, searched: seq<Table>, k: nat) {
    && k < |ups| && k < |searched| && k + 1 < |tables| && EdgesBelow(ups[k].edges, MAX_NODES)
    && Searched(GraphOf(ups[k].edges), NodesBefore(nodes, ups, k), ups[k].nodes, tables[k], searched[k])
    && var before := sources + MappedBy(ups[..k]);
       AllPatched(AsWritten, searched[k], tables[k + 1], NodesBefore(nodes, ups, k), ups[k].nodes, before + ups[k].mapped, |before|)
  }

  ghost predicate TracedUpTo(nodes: nat, sources: seq<nat>, ups: seq<Update>, tables: seq<Table>, searched: seq<Table>, i: nat) {
    && i <= |ups| && |searched| == i && |tables| == i + 1
    && forall k :: 0 <= k < i ==> Traced(nodes, sources, ups, tables, searched, k)
  }

  ghost predicate SafeUpTo(nodes: nat, sources: seq<nat>, ups: seq<Update>, searched: seq<Table>, i: nat) {
    forall k :: 0 <= k < i ==> SafeRound(nodes, sources, ups, searched, k)
  }

  // The rows are exact and all rounds so far were safe, or an entry is spoiled and one was not.
  ghost predicate ExactIffSafe(g: Adjacency, n: nat, t: Table, mapped: seq<nat>, safe: bool) {
    if safe then RowsExact(g, n, t, mapped) else SomeSpoiled(g, t, n, mapped)
  }

  lemma {:induction false} RoundKeeps(nodes: nat, edges: seq<(nat, nat)>, g: Adjacency, sources: seq<nat>, t0: Table, up: Update,
                                     t1: Table, t2: Table, safe: bool)
    requires StateOk(nodes, edges, g, sources, t0) && UpdateOk(nodes, edges, up) && EdgesBelow(up.edges, MAX_NODES)
    requires ExactIffSafe(g, nodes, t0, sources, safe)
    requires Searched(GraphOf(up.edges), nodes, up.nodes, t0, t1)
    requires AllPatched(AsWritten, t1, t2, nodes, up.nodes, sources + up.mapped, |sources|)
    requires RowsExact(g, nodes, t0, sources) ==>
               (RowsExact(GraphOf(up.edges), up.nodes, t2, sources + up.mapped) <==> AllSafe(t1, nodes, up.nodes, sources))
    ensures ExactIffSafe(GraphOf(up.edges), up.nodes, t2, sources + up.mapped, safe && AllSafe(t1, nodes, up.nodes, sources))
  {
    hide StateOk, UpdateOk, RowsExact, AllPatched, AllSafe, Spoiled, GraphOf, EdgesBelow;
    if !safe {
      var i: nat, j: nat :| Spoiled(g, t0, nodes, sources, i, j);
      SpoiledStays(nodes, edges, g, sources, t0, up, t1, t2, i, j);
    } else if !AllSafe(t1, nodes, up.nodes, sources) {
      UnsafeRoundSpoils(nodes, edges, g, sources, t0, up, t1, t2);
    }
  }

  /** The loop in main, as written: after any number of rounds from exact rows, the rows are exact if and
      only if in every round every patched pair was safe. */
  method RunAsWritten(p: Process, ups: seq<Update>) returns (ghost tables: seq<Table>, ghost searched: seq<Table>)
    requires p.Valid() && p.Exact() && UpdatesOk(p.numNodes, p.edges, ups)
    modifies p
    ensures p.Valid() && p.mapped == old(p.mapped) + MappedBy(ups)
    ensures TracedUpTo(old(p.numNodes), old(p.mapped), ups, tables, searched, |ups|)
    ensures tables[0] == old(p.table) && tables[|ups|] == p.table
    ensures p.Exact() <==> SafeUpTo(old(p.numNodes), old(p.mapped), ups, searched, |ups|)
  {
    hide TracedUpTo, SafeUpTo, ExactIffSafe, StateOk, UpdateOk, RowsExact, AllPatched, AllSafe, Searched, GraphOf, EdgesBelow;
    ghost var nodes, sources := p.numNodes, p.mapped;
    tables, searched := [p.table], [];
    var i := 0;
    TraceNone(nodes, sources, ups, p.table, p.adj, p.mapped);
    while i < |ups|
      invariant i <= |ups| && p.Valid() && UpdatesOk(p.numNodes, p.edges, ups[i..])
      invariant p.numNodes == NodesBefore(nodes, ups, i) && p.mapped == sources + MappedBy(ups[..i])
      invariant |searched| == i && |tables| == i + 1 && tables[0] == old(p.table) && tables[i] == p.table
      invariant TracedUpTo(nodes, sources, ups, tables, searched, i)
      invariant ExactIffSafe(p.adj, p.numNodes, p.table, p.mapped, SafeUpTo(nodes, sources, ups, searched, i))
    {
      hide MappedBy;
      assert ups[i..][0] == ups[i] && ups[i..][1..] == ups[i + 1..];
      ghost var t1;
      t1 := RoundAsWritten(p, ups[i], SafeUpTo(nodes, sources, ups, searched, i));
      TraceMore(nodes, sources, ups, i, tables, searched, t1, p.table);
      assert ups[..i + 1] == ups[..i] + [ups[i]];
      MappedMore(sources, ups[..i], ups[i]);
      tables, searched := tables + [p.table], searched + [t1];
      i := i + 1;
    }
    assert ups[..|ups|] == ups;
    EndsExact(p.adj, p.numNodes, p.table, p.mapped, SafeUpTo(nodes, sources, ups, searched, |ups|));
  }

  /** One turn of that loop, from whatever rows there are. */
  method RoundAsWritten(p: Process, up: Update, ghost safe: bool) returns (ghost searched: Table)
    requires p.Valid() && UpdateOk(p.numNodes, p.edges, up) && ExactIffSafe(p.adj, p.numNodes, p.table, p.mapped, safe)
    modifies p
    ensures p.Valid() && p.numNodes == up.nodes && p.edges == up.edges && p.mapped == old(p.mapped) + up.mapped
    ensures EdgesBelow(up.edges, MAX_NODES) && Searched(GraphOf(up.edges), old(p.numNodes), up.nodes, old(p.table), searched)
    ensures AllPatched(AsWritten, searched, p.table, old(p.numNodes), up.nodes, p.mapped, |old(p.mapped)|)
    ensures ExactIffSafe(p.adj, p.numNodes, p.table, p.mapped, safe && AllSafe(searched, old(p.numNodes), up.nodes, old(p.mapped)))
  {
    hide ExactIffSafe, StateOk, UpdateOk, RowsExact, AllPatched, AllSafe, Searched, GraphOf, EdgesBelow;
    ghost var nodes, edges, g, sources, t0 := p.numNodes, p.edges, p.adj, p.mapped, p.table;
    InRange(nodes, edges, up);
    var lines;
    lines, searched := p.Round(AsWritten, up);
    StateGraph(p.numNodes, p.edges, p.adj, p.mapped, p.table);
    RoundKeeps(nodes, edges, g, sources, t0, up, searched, p.table, safe);
  }

  lemma {:induction false} TraceNone(nodes: nat, sources: seq<nat>, ups: seq<Update>, t: Table, g: Adjacency, mapped: seq<nat>)
    ensures TracedUpTo(nodes, sources, ups, [t], [], 0) && SafeUpTo(nodes, sources, ups, [], 0)
    ensures RowsExact(g, nodes, t, mapped) ==> ExactIffSafe(g, nodes, t, mapped, true)
    ensures sources + MappedBy(ups[..0]) == sources && ups[0..] == ups
  {
    hide RowsExact;
  }

  lemma {:induction false} InRange(nodes: nat, edges: seq<(nat, nat)>, up: Update)
    requires UpdateOk(nodes, edges, up)
    ensures EdgesBelow(up.edges, MAX_NODES)
  {
  }

  lemma {:induction false} StateGraph(nodes: nat, edges: seq<(nat, nat)>, g: Adjacency, sources: seq<nat>, t: Table)
    requires StateOk(nodes, edges, g, sources, t)
    ensures EdgesBelow(edges, MAX_NODES) && g == GraphOf(edges)
  {
  }

  lemma {:induction false} EndsExact(g: Adjacency, n: nat, t: Table, mapped: seq<nat>, safe: bool)
    requires ExactIffSafe(g, n, t, mapped, safe)
    ensures safe <==> RowsExact(g, n, t, mapped)
  {
    if !safe {
      SpoiledIsInexact(g, t, n, mapped);
    }
  }

  // The trace of one more round.
  lemma {:induction false} TraceMore(nodes: nat, sources: seq<nat>, ups: seq<Update>, i: nat, tables: seq<Table>, searched: seq<Table>,
                                    t1: Table, t2: Table)
    requires i < |ups| && TracedUpTo(nodes, sources, ups, tables, searched, i) && EdgesBelow(ups[i].edges, MAX_NODES)
    requires |tables| > i && Searched(GraphOf(ups[i].edges), NodesBefore(nodes, ups, i), ups[i].nodes, tables[i], t1)
    requires var before := sources + MappedBy(ups[..i]);
             AllPatched(AsWritten, t1, t2, NodesBefore(nodes, ups, i), ups[i].nodes, before + ups[i].mapped, |before|)
    ensures TracedUpTo(nodes, sources, ups, tables + [t2], searched + [t1], i + 1)
    ensures SafeUpTo(nodes, sources, ups, searched + [t1], i + 1) <==>
            SafeUpTo(nodes, sources, ups, searched, i) && AllSafe(t1, NodesBefore(nodes, ups, i), ups[i].nodes, sources + MappedBy(ups[..i]))
  {
    hide AllSafe, Searched, AllPatched, GraphOf, EdgesBelow, MappedBy;
    var tables', searched' := tables + [t2], searched + [t1];
    forall k | 0 <= k < i
      ensures SafeRound(nodes, sources, ups, searched', k) <==> SafeRound(nodes, sources, ups, searched, k)
      ensures Traced(nodes, sources, ups, tables', searched', k)
    {
      assert Traced(nodes, sources, ups, tables, searched, k);
    }
    assert SafeRound(nodes, sources, ups, searched', i) <==>
           AllSafe(t1, NodesBefore(nodes, ups, i), ups[i].nodes, sources + MappedBy(ups[..i]));
    assert Traced(nodes, sources, ups, tables', searched', i);
  }
}
