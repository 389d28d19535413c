/** One consumer process: it is mapped a share of the nodes and keeps their rows of a distance table
    up to date while the graph grows. */
module Consumer {
  import opened Graph
  import opened Dijkstra
  import opened Growth
  import opened Patch

  const MAX_NODES := 6000

  type Table = seq<seq<int>>

  ghost predicate Square(t: Table) {
    |t| == MAX_NODES && forall i :: 0 <= i < MAX_NODES ==> |t[i]| == MAX_NODES
  }

  function Put(t: Table, i: nat, j: nat, d: int): Table
    requires i < |t| && j < |t[i]|
  {
    t[i := t[i][j := d]]
  }

  lemma {:induction false} PutPut(t: Table, i: nat, j: nat, d: int, d': int)
    requires i < |t| && j < |t[i]|
    ensures Put(t, i, j, t[i][j]) == t
    ensures Put(Put(t, i, j, d), i, j, d') == Put(t, i, j, d')
  {
    assert t[i][j := t[i][j]] == t[i];
    assert t[i][j := d][j := d'] == t[i][j := d'];
    assert Put(Put(t, i, j, d), i, j, d') == Put(t, i, j, d');
  }

  // ---------- the graph, built from the edges in shared memory ----------

  function AddEdge(g: Adjacency, e: (nat, nat)): Adjacency
    requires e.0 < |g| && e.1 < |g|
  {
    var g' := g[e.0 := g[e.0] + [Edge(e.1, 1)]];
    g'[e.1 := g'[e.1] + [Edge(e.0, 1)]]
  }

  ghost predicate EdgesBelow(es: seq<(nat, nat)>, n: nat) {
    forall k :: 0 <= k < |es| ==> es[k].0 < n && es[k].1 < n
  }

  function GraphOf(es: seq<(nat, nat)>): (g: Adjacency)
    requires EdgesBelow(es, MAX_NODES)
    ensures |g| == MAX_NODES
  {
    if es == [] then seq(MAX_NODES, _ => []) else AddEdge(GraphOf(es[..|es| - 1]), es[|es| - 1])
  }

  // Exactly the listed edges are there, from both ends, each with weight 1.
  lemma {:induction false} GraphOfEdges(es: seq<(nat, nat)>, u: nat, e: Edge)
    requires EdgesBelow(es, MAX_NODES) && u < MAX_NODES
    ensures e in GraphOf(es)[u] <==> e.weight == 1 && ((u, e.to) in es || (e.to, u) in es)
  {
    if es != [] {
      var k := |es| - 1;
      GraphOfEdges(es[..k], u, e);
      var last := es[k];
      var g := GraphOf(es[..k]);
      assert es == es[..k] + [last];
      assert AddEdge(g, last)[u] == g[u] + (if u == last.0 then [Edge(last.1, 1)] else []) + (if u == last.1 then [Edge(last.0, 1)] else []);
    }
  }

  lemma {:induction false} GraphOfShape(es: seq<(nat, nat)>, n: nat)
    requires n <= MAX_NODES && EdgesBelow(es, n)
    ensures Symmetric(GraphOf(es), n) && UnitWeights(GraphOf(es), n) && FitsInt(GraphOf(es), n, 1)
  {
    var g := GraphOf(es);
    forall u, e: Edge | 0 <= u < n && e in g[u]
      ensures e.to < n && e.weight == 1 && Edge(u, e.weight) in g[e.to]
    {
      GraphOfEdges(es, u, e);
      GraphOfEdges(es, e.to, Edge(u, 1));
    }
  }

  // Each edge from position k on touches a node numbered prev or more.
  ghost predicate TouchesNew(es: seq<(nat, nat)>, k: nat, prev: nat) {
    forall i :: k <= i < |es| ==> es[i].0 >= prev || es[i].1 >= prev
  }

  lemma {:induction false} GraphGrows(es: seq<(nat, nat)>, k: nat, prev: nat, n: nat)
    requires prev <= n <= MAX_NODES && k <= |es| && EdgesBelow(es[..k], prev) && EdgesBelow(es, n)
    requires TouchesNew(es, k, prev)
    ensures Grows(GraphOf(es[..k]), GraphOf(es), prev, n)
  {
    GraphOfShape(es[..k], prev);
    GraphOfShape(es, n);
    EdgesGrow(es, k, prev, GraphOf(es[..k]), GraphOf(es));
  }

  lemma {:induction false} EdgesGrow(es: seq<(nat, nat)>, k: nat, prev: nat, g: Adjacency, h: Adjacency)
    requires prev <= MAX_NODES && k <= |es| && EdgesBelow(es[..k], prev) && EdgesBelow(es, MAX_NODES)
    requires TouchesNew(es, k, prev) && g == GraphOf(es[..k]) && h == GraphOf(es)
    ensures forall u, e :: 0 <= u < prev && e in g[u] ==> e in h[u]
    ensures forall u, e :: 0 <= u < prev && e in h[u] && e.to < prev ==> e in g[u]
  {
    forall u: nat, e: Edge | u < prev && e in g[u] ensures e in h[u] {
      EdgeGrows(es, k, prev, u, e);
    }
    forall u: nat, e: Edge | u < prev && e in h[u] && e.to < prev ensures e in g[u] {
      EdgeGrows(es, k, prev, u, e);
    }
  }

  lemma {:induction false} EdgeGrows(es: seq<(nat, nat)>, k: nat, prev: nat, u: nat, e: Edge)
    requires u < prev <= MAX_NODES && k <= |es| && EdgesBelow(es[..k], prev) && EdgesBelow(es, MAX_NODES)
    requires TouchesNew(es, k, prev)
    ensures e in GraphOf(es[..k])[u] ==> e in GraphOf(es)[u]
    ensures e in GraphOf(es)[u] && e.to < prev ==> e in GraphOf(es[..k])[u]
  {
    hide GraphOf;
    GraphOfEdges(es[..k], u, e);
    GraphOfEdges(es, u, e);
    OldEdge(es, k, prev, (u, e.to));
    OldEdge(es, k, prev, (e.to, u));
  }

  lemma {:induction false} OldEdge(es: seq<(nat, nat)>, k: nat, prev: nat, e: (nat, nat))
    requires k <= |es| && TouchesNew(es, k, prev)
    ensures e in es[..k] ==> e in es
    ensures e in es && e.0 < prev && e.1 < prev ==> e in es[..k]
  {
  }

  // ---------- the distance table ----------

  // Row m holds the true distances from m.
  ghost predicate RowExact(g: Adjacency, n: nat, t: Table, m: nat) {
    && n <= MAX_NODES && m < MAX_NODES && Square(t)
    && forall j :: 0 <= j < n ==> IsDistance(g, m, j, t[m][j]) && t[m][j] <= INT_MAX
  }

  // Row x is exact and column x repeats it; a search leaves it so.
  ghost predicate CrossExact(g: Adjacency, n: nat, t: Table, x: nat) {
    && RowExact(g, n, t, x)
    && forall i :: 0 <= i < n ==> t[i][x] == t[x][i] && Small(t[x][i])
  }

  // t is t0 with the first i entries of dist written into row and column x.
  ghost predicate Written(t0: Table, t: Table, x: nat, dist: seq<int>, i: nat) {
    && Square(t0) && Square(t) && x < |dist| <= MAX_NODES && i <= |dist|
    && (forall k :: 0 <= k < i ==> t[x][k] == dist[k] && t[k][x] == dist[k])
    && (forall k, j :: 0 <= k < MAX_NODES && 0 <= j < MAX_NODES && !(k == x && j < i) && !(j == x && k < i) ==> t[k][j] == t0[k][j])
  }

  lemma {:induction false} WriteNext(t0: Table, t: Table, x: nat, dist: seq<int>, i: nat)
    requires Written(t0, t, x, dist, i) && i < |dist|
    ensures x < |t| && i < |t| && i < |t[x]| && x < |Put(t, x, i, dist[i])[i]|
    ensures Written(t0, Put(Put(t, x, i, dist[i]), i, x, dist[i]), x, dist, i + 1)
  {
  }

  lemma {:induction false} WrittenExact(g: Adjacency, t0: Table, t: Table, n: nat, x: nat, dist: seq<int>, parent: seq<int>, tree: map<nat, Walk>)
    requires Solved(g, n, x, dist, parent, tree, Cap(n, 1)) && Written(t0, t, x, dist, n)
    ensures CrossExact(g, n, t, x)
    ensures forall k :: 0 <= k < n ==> t[x][k] == dist[k]
    ensures SameOutside(t0, t, n, x)
  {
    hide IsDistance;
  }

  // Only entries of row and column x changed.
  ghost predicate SameOutside(t0: Table, t: Table, n: nat, x: nat) {
    && Square(t0) && Square(t)
    && forall i, j :: 0 <= i < MAX_NODES && 0 <= j < MAX_NODES && (i != x || j >= n) && (j != x || i >= n) ==> t[i][j] == t0[i][j]
  }

  lemma {:induction false} SearchKeepsRow(g: Adjacency, n: nat, t0: Table, t: Table, x: nat, m: nat)
    requires Symmetric(g, n) && x < n && m < n
    requires RowExact(g, n, t0, m) && CrossExact(g, n, t, x) && SameOutside(t0, t, n, x)
    ensures RowExact(g, n, t, m)
    ensures forall j :: 0 <= j < n ==> t[m][j] == t0[m][j]
  {
    DistanceSymmetric(g, n, x, m, t[x][m]);
    forall j | 0 <= j < n ensures IsDistance(g, m, j, t[m][j]) && t[m][j] <= INT_MAX && t[m][j] == t0[m][j] {
      if m == x {
        DistanceUnique(g, m, j, t[m][j], t0[m][j]);
      } else if j == x {
        assert t[m][x] == t[x][m];
        DistanceUnique(g, m, j, t[m][j], t0[m][j]);
      }
    }
  }

  lemma {:induction false} SearchKeepsCross(g: Adjacency, n: nat, t0: Table, t: Table, x: nat, y: nat)
    requires Symmetric(g, n) && x < n && y < n
    requires CrossExact(g, n, t0, y) && CrossExact(g, n, t, x) && SameOutside(t0, t, n, x)
    ensures CrossExact(g, n, t, y)
    ensures forall j :: 0 <= j < n ==> t[y][j] == t0[y][j]
  {
    SearchKeepsRow(g, n, t0, t, x, y);
    hide IsDistance;
    forall i | 0 <= i < n ensures t[i][y] == t[y][i] && Small(t[y][i]) {
      if i == x || y == x {
        assert t[i][y] == t[y][i];
      } else {
        assert t[i][y] == t0[i][y] && t0[i][y] == t0[y][i];
      }
    }
  }

  // The paths kept for one source.
  ghost predicate PathsOk(g: Adjacency, n: nat, t: Table, x: nat, paths: seq<seq<nat>>) {
    && Square(t) && x < n <= MAX_NODES && |paths| == n
    && forall i :: 0 <= i < n && t[x][i] != INT_MAX ==> IsPath(g, x, i, t[x][i], paths[i])
  }

  // The first k new nodes have been searched from.
  ghost predicate NewRowsOk(g: Adjacency, n: nat, t: Table, prev: nat, k: nat, paths: seq<seq<seq<nat>>>) {
    && |paths| >= k
    && forall x :: prev <= x < prev + k ==> RowDone(g, n, t, prev, x, paths)
  }

  // Node x has been searched from.
  ghost predicate RowDone(g: Adjacency, n: nat, t: Table, prev: nat, x: nat, paths: seq<seq<seq<nat>>>) {
    prev <= x < prev + |paths| && CrossExact(g, n, t, x) && PathsOk(g, n, t, x, paths[x - prev])
  }

  // One more new node has been searched from.
  lemma {:induction false} NewRowsMore(g: Adjacency, n: nat, t0: Table, t: Table, prev: nat, k: nat, paths: seq<seq<seq<nat>>>, ps: seq<seq<nat>>)
    requires Symmetric(g, n) && prev + k < n && |paths| == k && NewRowsOk(g, n, t0, prev, k, paths)
    requires CrossExact(g, n, t, prev + k) && PathsOk(g, n, t, prev + k, ps) && SameOutside(t0, t, n, prev + k)
    ensures NewRowsOk(g, n, t, prev, k + 1, paths + [ps])
  {
    hide CrossExact, PathsOk, Symmetric, SameOutside;
    forall x | prev <= x < prev + (k + 1) ensures RowDone(g, n, t, prev, x, paths + [ps]) {
      if x < prev + k {
        assert RowDone(g, n, t0, prev, x, paths);
        SearchKeepsCross(g, n, t0, t, prev + k, x);
        PathsStay(g, n, t0, t, x, paths[x - prev]);
      }
    }
  }

  lemma {:induction false} PathsStay(g: Adjacency, n: nat, t0: Table, t: Table, x: nat, paths: seq<seq<nat>>)
    requires PathsOk(g, n, t0, x, paths) && CrossExact(g, n, t, x)
    requires forall j :: 0 <= j < n ==> t[x][j] == t0[x][j]
    ensures PathsOk(g, n, t, x, paths)
  {
    hide IsPath, IsDistance;
  }

  // The distances from the new nodes prev..n-1 to j.
  function Column(t: Table, prev: nat, n: nat, j: nat): seq<int>
    requires prev <= n <= |t| && forall i :: 0 <= i < |t| ==> j < |t[i]|
  {
    seq(n - prev, k requires 0 <= k < n - prev => t[prev + k][j])
  }

  // The patched distance from m = mapped[i] to j, from the table as the searches leave it.
  ghost function PairValue(r: Reading, t: Table, prev: nat, n: nat, i: nat, m: nat, j: nat): int
    requires Square(t) && m < MAX_NODES && j < MAX_NODES && prev <= n <= MAX_NODES
  {
    PatchedPair(r, i, m, j, t[m][j], t[m][prev..n], Column(t, prev, n, j))
  }

  // Row m, patched through the new nodes.
  ghost predicate RowPatched(r: Reading, t0: Table, t: Table, prev: nat, n: nat, i: nat, m: nat) {
    && Square(t0) && Square(t) && m < prev <= n <= MAX_NODES
    && (forall j :: 0 <= j < prev ==> t[m][j] == PairValue(r, t0, prev, n, i, m, j))
    && (forall j :: prev <= j < MAX_NODES ==> t[m][j] == t0[m][j])
  }

  // A line of the result file: a distance and the path that realises it.
  datatype Line = Line(source: nat, target: nat, dist: int, path: seq<nat>)

  // The line reports the stored distance from m, and its path is a walk of that length.
  ghost predicate LineOk(g: Adjacency, t: Table, m: nat, line: Line) {
    && line.source == m < |t| && line.target < |t[m]| && line.dist == t[m][line.target]
    && IsPath(g, m, line.target, line.dist, line.path)
  }

  // ---------- what is printed ----------

  // Entry (m, j) is smaller in t than in t0.
  ghost predicate Fell(t0: Table, t: Table, m: nat, j: nat) {
    && m < |t0| && m < |t| && j < |t0[m]| && j < |t[m]|
    && t[m][j] < t0[m][j]
  }

  // The line names the distance that is stored.
  ghost predicate Reports(t: Table, line: Line) {
    line.source < |t| && line.target < |t[line.source]| && line.dist == t[line.source][line.target]
  }

  // How many lines there are for the pair (m, j).
  function Printed(lines: seq<Line>, m: nat, j: nat): nat {
    if lines == [] then 0
    else var last := lines[|lines| - 1];
         Printed(lines[..|lines| - 1], m, j) + if last.source == m && last.target == j then 1 else 0
  }

  // Of row m, one line for each of the first j entries that fell, and no other line.
  ghost predicate RowPrinted(t0: Table, t: Table, m: nat, lines: seq<Line>, j: nat) {
    && (forall line :: line in lines ==> line.source == m && line.target < j && Reports(t, line))
    && (forall y :: 0 <= y < j ==> Printed(lines, m, y) == if Fell(t0, t, m, y) then 1 else 0)
  }

  // The same for the first count sources, with n entries a row.
  ghost predicate AllPrinted(t0: Table, t: Table, lines: seq<Line>, sources: seq<nat>, count: nat, n: nat) {
    && count <= |sources|
    && (forall line :: line in lines ==> line.source in sources[..count] && line.target < n && Reports(t, line))
    && (forall i, j :: 0 <= i < count && 0 <= j < n ==> Printed(lines, sources[i], j) == if Fell(t0, t, sources[i], j) then 1 else 0)
  }

  lemma {:induction false} PrintedBoth(lines: seq<Line>, more: seq<Line>, m: nat, j: nat)
    ensures Printed(lines + more, m, j) == Printed(lines, m, j) + Printed(more, m, j)
  {
    if more == [] {
      assert lines + more == lines;
    } else {
      var k := |more| - 1;
      assert (lines + more)[..|lines + more| - 1] == lines + more[..k];
      PrintedBoth(lines, more[..k], m, j);
    }
  }

  lemma {:induction false} PrintedNone(lines: seq<Line>, m: nat, j: nat)
    requires forall line :: line in lines ==> line.source != m || line.target != j
    ensures Printed(lines, m, j) == 0
  {
    if lines != [] {
      var k := |lines| - 1;
      assert lines == lines[..k] + [lines[k]];
      PrintedNone(lines[..k], m, j);
    }
  }

  lemma {:induction false} NoRowPrinted(t: Table, m: nat)
    ensures RowPrinted(t, t, m, [], 0)
  {
  }

  lemma {:induction false} PutIsLocal(t: Table, m: nat, j: nat, d: int)
    requires Square(t) && m < MAX_NODES && j < MAX_NODES
    ensures var t' := Put(t, m, j, d); Square(t') && forall y :: 0 <= y < MAX_NODES && y != j ==> t'[m][y] == t[m][y]
  {
  }

  /** Entry j of row m has been looked at: nothing or one line more. */
  lemma {:induction false} PrintsMore(t0: Table, t: Table, t': Table, m: nat, lines: seq<Line>, more: seq<Line>, j: nat, n: nat)
    requires Square(t0) && Square(t) && Square(t') && m < MAX_NODES && j < n <= MAX_NODES
    requires RowPrinted(t0, t, m, lines, j) && t[m][j] == t0[m][j]
    requires forall y :: 0 <= y < j ==> t'[m][y] == t[m][y]
    requires if Fell(t, t', m, j) then |more| == 1 && more[0].source == m && more[0].target == j && Reports(t', more[0]) else more == []
    ensures RowPrinted(t0, t', m, lines + more, j + 1)
  {
    forall y | 0 <= y < j + 1 ensures Printed(lines + more, m, y) == if Fell(t0, t', m, y) then 1 else 0 {
      PrintedBoth(lines, more, m, y);
      if y == j {
        PrintedNone(lines, m, j);
      } else {
        PrintedNone(more, m, y);
      }
    }
  }

  lemma {:induction false} NonePrinted(t: Table, sources: seq<nat>, n: nat)
    ensures AllPrinted(t, t, [], sources, 0, n)
  {
  }

  // Without new nodes nothing falls, and nothing is printed.
  lemma {:induction false} NothingPrinted(t: Table, n: nat, sources: seq<nat>)
    ensures AllPrinted(t, t, [], sources, |sources|, n)
  {
  }

  /** One more row has been patched and printed. */
  lemma {:induction false} RowsPrintedMore(t0: Table, t: Table, t': Table, lines: seq<Line>, more: seq<Line>, sources: seq<nat>, i: nat, n: nat)
    requires i < |sources| && Distinct(sources) && AllPrinted(t0, t, lines, sources, i, n)
    requires RowPrinted(t, t', sources[i], more, n)
    requires Square(t0) && Square(t) && Square(t') && sources[i] < MAX_NODES
    requires t[sources[i]] == t0[sources[i]] && forall x :: 0 <= x < MAX_NODES && x != sources[i] ==> t'[x] == t[x]
    ensures AllPrinted(t0, t', lines + more, sources, i + 1, n)
  {
    forall k, j | 0 <= k < i + 1 && 0 <= j < n
      ensures Printed(lines + more, sources[k], j) == if Fell(t0, t', sources[k], j) then 1 else 0
    {
      PrintedBoth(lines, more, sources[k], j);
      if k == i {
        PrintedNone(lines, sources[i], j);
      } else {
        PrintedNone(more, sources[k], j);
        assert Printed(lines, sources[k], j) == if Fell(t0, t, sources[k], j) then 1 else 0;
      }
    }
  }

  lemma {:induction false} PathsLength(g: Adjacency, n: nat, t: Table, prev: nat, paths: seq<seq<seq<nat>>>)
    requires prev <= n && NewRowsOk(g, n, t, prev, n - prev, paths)
    ensures forall k :: 0 <= k < n - prev ==> |paths[k]| == n
  {
    forall k | 0 <= k < n - prev ensures |paths[k]| == n {
      var x := prev + k;
      assert RowDone(g, n, t, prev, x, paths);
    }
  }

  lemma {:induction false} DetourPath(g: Adjacency, n: nat, t: Table, prev: nat, k: nat, m: nat, j: nat, paths: seq<seq<seq<nat>>>)
    requires Symmetric(g, n) && prev <= n <= MAX_NODES && k < n - prev && m < prev && j < prev
    requires Square(t) && NewRowsOk(g, n, t, prev, n - prev, paths)
    requires Saturating(t[m][prev + k], t[prev + k][j]) < INT_MAX
    ensures m < |paths[k]| && j < |paths[k]| && paths[k][j] != []
    ensures IsPath(g, m, j, Saturating(t[m][prev + k], t[prev + k][j]), ReverseSeq(paths[k][m]) + paths[k][j][1..])
  {
    var x := prev + k;
    assert RowDone(g, n, t, prev, x, paths);
    assert t[m][x] == t[x][m];
    SplicedPath(g, n, x, m, j, t[x][m], t[x][j], paths[k][m], paths[k][j]);
  }

  // What the producer has put into shared memory when a round starts.
  datatype Update = Update(nodes: nat, edges: seq<(nat, nat)>, mapped: seq<nat>)

  ghost predicate Distinct(s: seq<nat>) {
    forall i, j :: 0 <= i < j < |s| ==> s[i] != s[j]
  }

  /** An update only adds nodes, edges that have a new node at one end, and new nodes to map. */
  ghost predicate UpdateOk(nodes: nat, edges: seq<(nat, nat)>, up: Update) {
    && nodes <= up.nodes <= MAX_NODES
    && edges <= up.edges && EdgesBelow(up.edges, up.nodes) && TouchesNew(up.edges, |edges|, nodes)
    && Distinct(up.mapped) && (forall i :: 0 <= i < |up.mapped| ==> nodes <= up.mapped[i] < up.nodes)
  }

  ghost predicate UpdatesOk(nodes: nat, edges: seq<(nat, nat)>, ups: seq<Update>)
    decreases |ups|
  {
    ups == [] || (UpdateOk(nodes, edges, ups[0]) && UpdatesOk(ups[0].nodes, ups[0].edges, ups[1..]))
  }

  // All nodes that these updates map, in order.
  function MappedBy(ups: seq<Update>): seq<nat> {
    if ups == [] then [] else MappedBy(ups[..|ups| - 1]) + ups[|ups| - 1].mapped
  }

  // Nodes mapped before, and by these updates, and by one more.
  lemma {:induction false} MappedMore(before: seq<nat>, ups: seq<Update>, up: Update)
    ensures before + MappedBy(ups + [up]) == before + MappedBy(ups) + up.mapped
  {
    assert (ups + [up])[..|ups|] == ups;
    Regroup(before, MappedBy(ups), up.mapped);
  }

  lemma {:induction false} Regroup<T>(a: seq<T>, b: seq<T>, c: seq<T>)
    ensures a + (b + c) == a + b + c
  {
  }

  ghost predicate StateOk(nodes: nat, edges: seq<(nat, nat)>, adj: Adjacency, mapped: seq<nat>, table: Table) {
    && nodes <= MAX_NODES && EdgesBelow(edges, nodes) && adj == GraphOf(edges)
    && Distinct(mapped) && (forall i :: 0 <= i < |mapped| ==> mapped[i] < nodes)
    && Square(table)
  }

  ghost predicate RowsExact(g: Adjacency, n: nat, t: Table, mapped: seq<nat>) {
    forall i :: 0 <= i < |mapped| ==> RowExact(g, n, t, mapped[i])
  }

  ghost predicate LinesOk(g: Adjacency, t: Table, lines: seq<Line>) {
    forall line :: line in lines ==> LineOk(g, t, line.source, line)
  }

  // Distances between old nodes have not changed.
  ghost predicate SameOld(t0: Table, t: Table, prev: nat) {
    && Square(t0) && Square(t) && prev <= MAX_NODES
    && forall i, j :: 0 <= i < prev && 0 <= j < prev ==> t[i][j] == t0[i][j]
  }

  // The rows from prev on have not changed.
  ghost predicate SameNew(t0: Table, t: Table, prev: nat) {
    Square(t0) && Square(t) && forall x :: prev <= x < MAX_NODES ==> t[x] == t0[x]
  }

  ghost predicate Below(nodes: seq<nat>, n: nat) {
    forall i :: 0 <= i < |nodes| ==> nodes[i] < n
  }

  // The rows of the first count sources are patched.
  ghost predicate AllPatched(r: Reading, t0: Table, t: Table, prev: nat, n: nat, sources: seq<nat>, count: nat) {
    count <= |sources| && forall i :: 0 <= i < count ==> RowPatched(r, t0, t, prev, n, i, sources[i])
  }

  lemma {:induction false} PatchedPrefix(r: Reading, t0: Table, t: Table, prev: nat, n: nat, sources: seq<nat>, count: nat)
    requires AllPatched(r, t0, t, prev, n, sources, count)
    ensures AllPatched(r, t0, t, prev, n, sources[..count], count)
  {
  }

  // Entry (m, j) of t0, taking the first k detours through new nodes, gave t; minIdx was taken last.
  ghost predicate DetoursTaken(r: Reading, t0: Table, t: Table, prev: nat, n: nat, m: nat, j: nat, k: nat, minIdx: int) {
    && Square(t0) && prev <= n <= MAX_NODES && m < prev && j < prev && k <= n - prev
    && var a, b := t0[m][prev..n], Column(t0, prev, n, j);
       && t == Put(t0, m, j, Patched(r, t0[m][j], a[..k], b[..k])) && t[m][j] <= t0[m][j]
       && (if minIdx == INT_MAX then t[m][j] == t0[m][j]
           else 0 <= minIdx < k && t[m][j] == Sum(r, a[minIdx], b[minIdx]) < t0[m][j])
  }

  lemma {:induction false} NoDetours(r: Reading, t: Table, prev: nat, n: nat, m: nat, j: nat)
    requires Square(t) && prev <= n <= MAX_NODES && m < prev && j < prev
    ensures DetoursTaken(r, t, t, prev, n, m, j, 0, INT_MAX)
  {
    PutPut(t, m, j, 0, 0);
    assert Patched(r, t[m][j], t[m][prev..n][..0], Column(t, prev, n, j)[..0]) == t[m][j];
  }

  lemma {:induction false} DetourStep(r: Reading, t0: Table, t: Table, prev: nat, n: nat, m: nat, j: nat, k: nat, minIdx: int)
    requires DetoursTaken(r, t0, t, prev, n, m, j, k, minIdx) && k < n - prev
    ensures m < prev + k < |t| && j < |t[m]| && prev + k < |t[m]| && j < |t[prev + k]|
    ensures var s := Sum(r, t[m][prev + k], t[prev + k][j]);
            if t[m][j] > s then DetoursTaken(r, t0, Put(t, m, j, s), prev, n, m, j, k + 1, k)
            else DetoursTaken(r, t0, t, prev, n, m, j, k + 1, minIdx)
  {
    var a, b := t0[m][prev..n], Column(t0, prev, n, j);
    PatchedNext(r, t0[m][j], a, b, k);
    hide Patched, Sum;
    assert t[m][prev + k] == t0[m][prev + k] == a[k];
    assert t[prev + k] == t0[prev + k] && t0[prev + k][j] == b[k];
    var s := Sum(r, a[k], b[k]);
    PutPut(t0, m, j, t[m][j], s);
    if t[m][j] > s {
      assert Put(t, m, j, s)[m][j] == s;
    }
  }

  lemma {:induction false} AllDetours(r: Reading, t0: Table, t: Table, prev: nat, n: nat, m: nat, j: nat, minIdx: int)
    requires prev <= n && DetoursTaken(r, t0, t, prev, n, m, j, n - prev, minIdx)
    ensures var a, b := t0[m][prev..n], Column(t0, prev, n, j);
            && t == Put(t0, m, j, Patched(r, t0[m][j], a, b))
            && (if minIdx == INT_MAX then t[m][j] == t0[m][j]
                else 0 <= minIdx < n - prev && t[m][j] == Sum(r, a[minIdx], b[minIdx]) < t0[m][j])
  {
    var a, b := t0[m][prev..n], Column(t0, prev, n, j);
    assert a[..n - prev] == a && b[..n - prev] == b;
  }

  class Process {
    var numNodes: nat
    var edges: seq<(nat, nat)>
    var adj: Adjacency
    var mapped: seq<nat>
    var table: Table

    ghost predicate Valid()
      reads this
    {
      StateOk(numNodes, edges, adj, mapped, table)
    }

    // Every mapped node's row of the table is exact for the current graph.
    ghost predicate Exact()
      reads this
    {
      RowsExact(adj, numNodes, table, mapped)
    }

    constructor (first: Update)
      requires UpdateOk(0, [], first)
      ensures Valid() && numNodes == first.nodes && edges == first.edges && mapped == first.mapped
      ensures table == seq(MAX_NODES, _ => seq(MAX_NODES, _ => INT_MAX))
    {
      numNodes, edges, mapped := first.nodes, first.edges, first.mapped;
      adj := seq(MAX_NODES, _ => []);
      table := seq(MAX_NODES, _ => seq(MAX_NODES, _ => INT_MAX));
      new;
      AddEdges(first.edges, 0);
    }

    /** Append the edges from position k on to the adjacency lists of both their ends. */
    method AddEdges(es: seq<(nat, nat)>, k: nat)
      requires k <= |es| && EdgesBelow(es, MAX_NODES) && adj == GraphOf(es[..k])
      modifies this`adj
      ensures adj == GraphOf(es)
    {
      for i := k to |es|
        invariant adj == GraphOf(es[..i])
      {
        assert es[..i + 1][..i] == es[..i];
        adj := AddEdge(adj, es[i]);
      }
      assert es[..|es|] == es;
    }

    /** dijkstra_algo_optim: search from x, write the result into row and column x, and keep the
        paths. */
    method SearchFrom(n: nat, x: nat) returns (paths: seq<seq<nat>>)
      requires Square(table) && x < n <= MAX_NODES
      requires Symmetric(adj, n) && FitsInt(adj, n, 1)
      modifies this`table
      ensures CrossExact(adj, n, table, x)
      ensures SameOutside(old(table), table, n, x)
      ensures PathsOk(adj, n, table, x, paths)
    {
      var dist, parent;
      ghost var tree;
      dist, parent, tree := Search(adj, n, x, 1);
      paths := [];
      ghost var t0 := table;
      assert |dist| == n;
      hide Solved, Put, Square, IsPath;
      for i := 0 to n
        invariant Written(t0, table, x, dist, i)
        invariant |paths| == i
        invariant forall k :: 0 <= k < i && dist[k] != INT_MAX ==> IsPath(adj, x, k, dist[k], paths[k])
      {
        WriteNext(t0, table, x, dist, i);
        table := Put(table, x, i, dist[i]);
        table := Put(table, i, x, dist[i]);
        var path := [];
        if dist[i] != INT_MAX {
          path := TracePath(adj, n, x, dist, parent, i, tree, Cap(n, 1));
        }
        paths := paths + [path];
      }
      WrittenExact(adj, t0, table, n, x, dist, parent, tree);
    }

    /** compute_shortest_path_optim with flag 0: one search from each mapped node. */
    method ComputeInitialRows()
      requires Valid()
      modifies this`table
      ensures Valid() && Exact()
    {
      GraphOfShape(edges, numNodes);
      hide GraphOf, Symmetric, FitsInt, EdgesBelow, Distinct, RowExact, CrossExact, SameOutside;
      for i := 0 to |mapped|
        invariant Square(table)
        invariant forall k :: 0 <= k < i ==> RowExact(adj, numNodes, table, mapped[k])
      {
        ghost var t0 := table;
        var _ := SearchFrom(numNodes, mapped[i]);
        CrossIsRow(adj, numNodes, table, mapped[i]);
        forall k | 0 <= k < i ensures RowExact(adj, numNodes, table, mapped[k]) {
          SearchKeepsRow(adj, numNodes, t0, table, mapped[i], mapped[k]);
        }
      }
    }

    /** The first half of flag 1: a search from each of the new nodes numNodes..n-1. */
    method ComputeNewRows(n: nat) returns (paths: seq<seq<seq<nat>>>)
      requires Square(table) && numNodes <= n <= MAX_NODES
      requires Symmetric(adj, n) && FitsInt(adj, n, 1)
      modifies this`table
      ensures Square(table) && |paths| == n - numNodes
      ensures NewRowsOk(adj, n, table, numNodes, n - numNodes, paths)
      ensures SameOld(old(table), table, numNodes)
    {
      assert numNodes <= n <= MAX_NODES;
      hide Symmetric, FitsInt, CrossExact, PathsOk, RowDone;
      paths := [];
      for k := 0 to n - numNodes
        invariant Square(table) && |paths| == k
        invariant NewRowsOk(adj, n, table, numNodes, k, paths)
        invariant SameOld(old(table), table, numNodes)
      {
        ghost var t0, ps0 := table, paths;
        var ps := SearchFrom(n, numNodes + k);
        paths := paths + [ps];
        NewRowsMore(adj, n, t0, table, numNodes, k, ps0, ps);
      }
    }

    /** The loop over k: take every detour through a new node that is shorter than what is stored,
        and remember the last one taken. */
    method TakeDetours(r: Reading, n: nat, m: nat, j: nat) returns (minIdx: int)
      requires Square(table) && numNodes <= n <= MAX_NODES && m < numNodes && j < numNodes
      modifies this`table
      ensures var a, b := old(table)[m][numNodes..n], Column(old(table), numNodes, n, j);
              && table == Put(old(table), m, j, Patched(r, old(table)[m][j], a, b))
              && (if minIdx == INT_MAX then table[m][j] == old(table)[m][j]
                  else 0 <= minIdx < n - numNodes && table[m][j] == Sum(r, a[minIdx], b[minIdx]) < old(table)[m][j])
    {
      hide Patched, Sum, Put, DetoursTaken, Square, Column;
      ghost var t0 := table;
      minIdx := INT_MAX;
      NoDetours(r, t0, numNodes, n, m, j);
      for k := 0 to n - numNodes
        invariant DetoursTaken(r, t0, table, numNodes, n, m, j, k, minIdx)
      {
        DetourStep(r, t0, table, numNodes, n, m, j, k, minIdx);
        var s := Sum(r, table[m][numNodes + k], table[numNodes + k][j]);
        if table[m][j] > s {
          table := Put(table, m, j, s);
          minIdx := k;
        }
      }
      AllDetours(r, t0, table, numNodes, n, m, j, minIdx);
    }

    /** One pair. A line is printed if and only if the distance has fallen, and it names the new one. */
    method PatchPair(r: Reading, n: nat, i: nat, j: nat, paths: seq<seq<seq<nat>>>) returns (lines: seq<Line>)
      requires Square(table) && numNodes <= n <= MAX_NODES && Symmetric(adj, n)
      requires i < |mapped| && mapped[i] < numNodes && j < numNodes && !Skips(r, i, mapped[i], j)
      requires NewRowsOk(adj, n, table, numNodes, n - numNodes, paths)
      modifies this`table
      ensures Square(table)
      ensures table == Put(old(table), mapped[i], j, PairValue(r, old(table), numNodes, n, i, mapped[i], j))
      ensures if Fell(old(table), table, mapped[i], j)
              then |lines| == 1 && lines[0].source == mapped[i] && lines[0].target == j && lines[0].dist == table[mapped[i]][j]
              else lines == []
      ensures r == Intended && old(table)[mapped[i]][j] <= INT_MAX ==>
                forall line :: line in lines ==> line.target == j && LineOk(adj, table, mapped[i], line)
    {
      var m := mapped[i];
      PathsLength(adj, n, table, numNodes, paths);
      hide Symmetric, NewRowsOk, Patched;
      var minIdx := TakeDetours(r, n, m, j);
      lines := [];
      if minIdx != INT_MAX {
        var p, q := paths[minIdx][m], paths[minIdx][j];
        lines := [Line(m, j, table[m][j], ReverseSeq(p) + if q == [] then [] else q[1..])];
        if r == Intended && old(table)[m][j] <= INT_MAX {
          DetourPath(adj, n, old(table), numNodes, minIdx, m, j, paths);
        }
      }
    }

    /** All pairs of one old source node. */
    method PatchRow(r: Reading, n: nat, i: nat, paths: seq<seq<seq<nat>>>) returns (lines: seq<Line>)
      requires Square(table) && numNodes <= n <= MAX_NODES && Symmetric(adj, n)
      requires i < |mapped| && mapped[i] < numNodes
      requires NewRowsOk(adj, n, table, numNodes, n - numNodes, paths)
      modifies this`table
      ensures RowPatched(r, old(table), table, numNodes, n, i, mapped[i])
      ensures NewRowsOk(adj, n, table, numNodes, n - numNodes, paths)
      ensures SameButRow(old(table), table, mapped[i], numNodes, numNodes)
      ensures RowPrinted(old(table), table, mapped[i], lines, numNodes)
      ensures r == Intended && SmallRow(old(table), mapped[i], numNodes) ==> RowLines(adj, table, mapped[i], lines, numNodes)
    {
      var m := mapped[i];
      ghost var t0 := table;
      lines := [];
      hide Symmetric, NewRowsOk, LineOk, PairValue, RowLines, RowPrinted, Skips, Put;
      NoRowPrinted(t0, m);
      for j := 0 to numNodes
        invariant NewRowsOk(adj, n, table, numNodes, n - numNodes, paths)
        invariant SameButRow(t0, table, m, numNodes, j) && RowUpTo(r, t0, table, numNodes, n, i, m, j)
        invariant RowPrinted(t0, table, m, lines, j)
        invariant r == Intended && SmallRow(t0, m, numNodes) ==> RowLines(adj, table, m, lines, j)
      {
        if Skips(r, i, m, j) {
          PrintsMore(t0, table, table, m, lines, [], j, numNodes);
          assert lines + [] == lines;
          RowSkips(r, adj, t0, table, numNodes, n, i, m, j, lines);
        } else {
          ghost var t, before := table, lines;
          var more := PatchPair(r, n, i, j, paths);
          lines := lines + more;
          RowSteps(r, adj, t0, t, numNodes, n, i, m, j, paths);
          PutIsLocal(t, m, j, PairValue(r, t, numNodes, n, i, m, j));
          PrintsMore(t0, t, table, m, before, more, j, numNodes);
          if r == Intended && SmallRow(t0, m, numNodes) {
            LinesMore(adj, t, m, before, more, j, PairValue(r, t, numNodes, n, i, m, j));
          }
        }
      }
    }

    /** The second half of flag 1: patch the rows of the old source nodes. */
    method PatchRows(r: Reading, n: nat, count: nat, paths: seq<seq<seq<nat>>>) returns (lines: seq<Line>)
      requires Square(table) && numNodes <= n <= MAX_NODES && Symmetric(adj, n)
      requires count <= |mapped| && Distinct(mapped) && Below(mapped[..count], numNodes)
      requires NewRowsOk(adj, n, table, numNodes, n - numNodes, paths)
      modifies this`table
      ensures Square(table)
      ensures AllPatched(r, old(table), table, numNodes, n, mapped, count)
      ensures SameNew(old(table), table, numNodes)
      ensures AllPrinted(old(table), table, lines, mapped, count, numNodes)
      ensures r == Intended && EntriesBounded(old(table), mapped[..count], numNodes) ==>
                LinesOk(adj, table, lines)
    {
      ghost var t0 := table;
      lines := [];
      hide Symmetric, NewRowsOk, LineOk, RowPatched, AllPrinted, RowPrinted;
      NonePrinted(t0, mapped, numNodes);
      for i := 0 to count
        invariant AllPrinted(t0, table, lines, mapped, i, numNodes)
        invariant Square(table) && NewRowsOk(adj, n, table, numNodes, n - numNodes, paths)
        invariant forall k :: 0 <= k < i ==> RowPatched(r, t0, table, numNodes, n, k, mapped[k])
        invariant forall x :: 0 <= x < MAX_NODES && x !in mapped[..i] ==> table[x] == t0[x]
        invariant r == Intended && EntriesBounded(t0, mapped[..count], numNodes) ==>
                    forall line :: line in lines ==> line.source in mapped[..i] && LineOk(adj, table, line.source, line)
      {
        ghost var t, ls := table, lines;
        assert mapped[i] !in mapped[..i];
        var more := PatchRow(r, n, i, paths);
        lines := lines + more;
        RowPatchedFrom(r, t0, t, table, numNodes, n, i, mapped[i]);
        RowsPrintedMore(t0, t, table, ls, more, mapped, i, numNodes);
        forall k | 0 <= k < i ensures RowPatched(r, t0, table, numNodes, n, k, mapped[k]) {
          RowPatchedStays(r, t0, t, table, numNodes, n, k, mapped[k]);
        }
        if r == Intended && EntriesBounded(t0, mapped[..count], numNodes) {
          assert mapped[i] in mapped[..count];
          assert SmallRow(t, mapped[i], numNodes);
          forall line | line in lines ensures line.source in mapped[..i + 1] && LineOk(adj, table, line.source, line) {
            PatchKeepsLine(adj, t, table, mapped[i], ls, more, mapped[..i], line);
          }
        }
      }
    }

    /** A changed graph: map the new nodes, add the new edges, search from the new nodes. */
    method SearchNew(up: Update) returns (paths: seq<seq<seq<nat>>>)
      requires Valid() && UpdateOk(numNodes, edges, up)
      modifies this`mapped, this`adj, this`table
      ensures mapped == old(mapped) + up.mapped && adj == GraphOf(up.edges)
      ensures Square(table) && NewRowsOk(adj, up.nodes, table, numNodes, up.nodes - numNodes, paths)
      ensures SameOld(old(table), table, numNodes)
    {
      CanSearch(numNodes, edges, adj, mapped, table, up);
      hide GraphOf, Symmetric, FitsInt, NewRowsOk, UpdateOk, EdgesBelow, StateOk, SameOld;
      mapped := mapped + up.mapped;
      AddEdges(up.edges, |edges|);
      paths := ComputeNewRows(up.nodes);
    }

    /** The same, followed by the patching. `searched` is the table between the two. */
    method TakeUpdate(r: Reading, up: Update) returns (lines: seq<Line>, ghost searched: Table)
      requires Valid() && UpdateOk(numNodes, edges, up)
      modifies this
      ensures Valid() && numNodes == up.nodes && edges == up.edges && mapped == old(mapped) + up.mapped
      ensures Searched(adj, old(numNodes), numNodes, old(table), searched)
      ensures AllPatched(r, searched, table, old(numNodes), numNodes, mapped, |old(mapped)|)
      ensures AllPrinted(searched, table, lines, mapped, |old(mapped)|, old(numNodes))
      ensures r == Intended && old(Exact()) ==> Exact() && LinesOk(adj, table, lines)
      ensures r == AsWritten && old(Exact()) ==> (Exact() <==> AllSafe(searched, old(numNodes), numNodes, old(mapped)))
    {
      hide StateOk, RowsExact, UpdateOk, GraphOf, Symmetric, NewRowsOk, AllPatched, SameOld, SameNew, Searched, AllSafe, LinesOk,
        EntriesBounded, Square, Distinct, Below, EdgesBelow, RowPatched, AllPrinted;
      ghost var g, t0, sources := adj, table, mapped;
      var n, count := up.nodes, |mapped|;
      CanPatch(numNodes, edges, g, sources, t0, up);
      var paths := SearchNew(up);
      searched := table;
      lines := PatchRows(r, n, count, paths);
      UpdateShape(numNodes, edges, g, sources, t0, up, searched, table, paths);
      if RowsExact(g, numNodes, t0, sources) {
        UpdateDone(r, numNodes, edges, g, sources, t0, up, searched, table, paths);
      }
      numNodes, edges := n, up.edges;
    }

    /** One turn of the loop in main, for the optimised program. As intended, all rows stay exact;
        as written, they do if and only if every pair is safe to patch. */
    method Round(r: Reading, up: Update) returns (lines: seq<Line>, ghost searched: Table)
      requires Valid() && UpdateOk(numNodes, edges, up)
      modifies this
      ensures Valid() && numNodes == up.nodes && edges == up.edges && mapped == old(mapped) + up.mapped
      ensures Searched(adj, old(numNodes), numNodes, old(table), searched)
      ensures AllPatched(r, searched, table, old(numNodes), numNodes, mapped, |old(mapped)|)
      ensures AllPrinted(searched, table, lines, mapped, |old(mapped)|, old(numNodes))
      ensures r == Intended && old(Exact()) ==> Exact() && LinesOk(adj, table, lines)
      ensures r == AsWritten && old(Exact()) ==> (Exact() <==> AllSafe(searched, old(numNodes), numNodes, old(mapped)))
    {
      if up.nodes == numNodes && |up.edges| == |edges| {
        NothingNew(numNodes, edges, up, table, mapped);
        NothingPatched(r, table, numNodes, mapped);
        NothingPrinted(table, numNodes, mapped);
        lines, searched := [], table;
      } else {
        lines, searched := TakeUpdate(r, up);
      }
    }

    /** The loop in main. However often the graph grows, the table of the intended program holds
        the true distances from every node mapped at the start or in some round, as a search from
        scratch would find them. */
    method RunRounds(ups: seq<Update>)
      requires Valid() && Exact() && UpdatesOk(numNodes, edges, ups)
      modifies this
      ensures Valid() && Exact() && mapped == old(mapped) + MappedBy(ups)
      ensures ups != [] ==> numNodes == ups[|ups| - 1].nodes && edges == ups[|ups| - 1].edges
      ensures ups == [] ==> numNodes == old(numNodes) && edges == old(edges)
    {
      var i := 0;
      ghost var before := mapped;
      while i < |ups|
        invariant i <= |ups| && Valid() && Exact() && UpdatesOk(numNodes, edges, ups[i..])
        invariant mapped == before + MappedBy(ups[..i])
        invariant i > 0 ==> numNodes == ups[i - 1].nodes && edges == ups[i - 1].edges
        invariant i == 0 ==> numNodes == old(numNodes) && edges == old(edges)
      {
        hide Exact, Valid, MappedBy, UpdateOk, Searched, AllPatched, AllPrinted, AllSafe, LinesOk;
        assert ups[i..][0] == ups[i] && ups[i..][1..] == ups[i + 1..];
        var _, _ := Round(Intended, ups[i]);
        assert ups[..i + 1] == ups[..i] + [ups[i]];
        MappedMore(before, ups[..i], ups[i]);
        i := i + 1;
      }
      assert ups[..|ups|] == ups;
    }

    /** compute_shortest_path, the program without the optimisation: a fresh search for each mapped
        node. It finds the very rows that the table holds. */
    method Recompute() returns (rows: seq<seq<int>>)
      requires Valid()
      ensures |rows| == |mapped|
      ensures forall i, j :: 0 <= i < |mapped| && 0 <= j < numNodes ==> |rows[i]| == numNodes && IsDistance(adj, mapped[i], j, rows[i][j])
      ensures Exact() ==> forall i :: 0 <= i < |mapped| ==> rows[i] == table[mapped[i]][..numNodes]
    {
      GraphOfShape(edges, numNodes);
      hide GraphOf, FitsInt, WellFormed, IsDistance;
      rows := [];
      for i := 0 to |mapped|
        invariant |rows| == i
        invariant forall k :: 0 <= k < i ==> |rows[k]| == numNodes
        invariant forall k, j :: 0 <= k < i && 0 <= j < numNodes ==> IsDistance(adj, mapped[k], j, rows[k][j])
      {
        var dist, parent;
        ghost var tree;
        dist, parent, tree := Search(adj, numNodes, mapped[i], 1);
        rows := rows + [dist];
      }
      if Exact() {
        forall i | 0 <= i < |mapped| ensures rows[i] == table[mapped[i]][..numNodes] {
          SameRow(adj, numNodes, table, mapped[i], rows[i]);
        }
      }
    }
  }

  lemma {:induction false} SameRow(g: Adjacency, n: nat, t: Table, m: nat, row: seq<int>)
    requires RowExact(g, n, t, m) && |row| == n
    requires forall j :: 0 <= j < n ==> IsDistance(g, m, j, row[j])
    ensures row == t[m][..n]
  {
    forall j | 0 <= j < n ensures row[j] == t[m][j] {
      DistanceUnique(g, m, j, row[j], t[m][j]);
    }
  }

  /** The table between the searches and the patching: the rows of the new nodes are exact, and the
      distances between old nodes are those of before. */
  ghost predicate Searched(h: Adjacency, prev: nat, n: nat, t0: Table, t: Table) {
    && Square(t0) && Square(t) && prev <= n <= MAX_NODES
    && SameOld(t0, t, prev)
    && (forall x :: prev <= x < n ==> CrossExact(h, n, t, x))
  }

  // Entry (m, j) may be patched by the program as written.
  ghost predicate SafeEntry(t: Table, prev: nat, n: nat, i: nat, m: nat, j: nat) {
    && Square(t) && m < MAX_NODES && j < MAX_NODES && prev <= n <= MAX_NODES
    && SafeToPatch(i, j, t[m][j], t[m][prev..n], Column(t, prev, n, j))
  }

  ghost predicate AllSafe(t: Table, prev: nat, n: nat, sources: seq<nat>) {
    forall i, j :: 0 <= i < |sources| && 0 <= j < prev ==> SafeEntry(t, prev, n, i, sources[i], j)
  }

  // An update that changes neither number brings nothing at all.
  lemma {:induction false} NothingNew(nodes: nat, edges: seq<(nat, nat)>, up: Update, t: Table, sources: seq<nat>)
    requires UpdateOk(nodes, edges, up) && up.nodes == nodes && |up.edges| == |edges| && Square(t)
    requires forall i :: 0 <= i < |sources| ==> sources[i] < nodes
    ensures up.edges == edges && up.mapped == []
    ensures AllSafe(t, nodes, nodes, sources)
  {
    assert edges == up.edges[..|edges|];
    if up.mapped != [] {
      HasHead(up.mapped);
    }
  }

  lemma {:induction false} HasHead(s: seq<nat>)
    requires s != []
    ensures s[0] in s
  {
  }

  lemma {:induction false} UpdateFacts(nodes: nat, edges: seq<(nat, nat)>, adj: Adjacency, mapped: seq<nat>, t: Table, up: Update)
    requires StateOk(nodes, edges, adj, mapped, t) && UpdateOk(nodes, edges, up)
    ensures nodes <= up.nodes <= MAX_NODES && |edges| <= |up.edges| && up.edges[..|edges|] == edges
    ensures EdgesBelow(up.edges, up.nodes) && EdgesBelow(up.edges, MAX_NODES) && EdgesBelow(edges, MAX_NODES)
    ensures adj == GraphOf(edges) && Square(t)
    ensures Distinct(mapped + up.mapped)
    ensures forall i :: 0 <= i < |mapped| ==> (mapped + up.mapped)[i] < nodes
    ensures forall i :: |mapped| <= i < |mapped + up.mapped| ==> nodes <= (mapped + up.mapped)[i] < up.nodes
    ensures Grows(adj, GraphOf(up.edges), nodes, up.nodes)
    ensures Symmetric(GraphOf(up.edges), up.nodes) && UnitWeights(GraphOf(up.edges), up.nodes) && FitsInt(GraphOf(up.edges), up.nodes, 1)
  {
    assert up.edges[..|edges|] == edges;
    GraphGrows(up.edges, |edges|, nodes, up.nodes);
    GraphOfShape(up.edges, up.nodes);
  }

  // What adding the edges and searching from the new nodes ask for.
  lemma {:induction false} CanSearch(nodes: nat, edges: seq<(nat, nat)>, adj: Adjacency, mapped: seq<nat>, t: Table, up: Update)
    requires StateOk(nodes, edges, adj, mapped, t) && UpdateOk(nodes, edges, up)
    ensures nodes <= up.nodes <= MAX_NODES && |edges| <= |up.edges| && EdgesBelow(up.edges, MAX_NODES)
    ensures adj == GraphOf(up.edges[..|edges|]) && Square(t)
    ensures Symmetric(GraphOf(up.edges), up.nodes) && FitsInt(GraphOf(up.edges), up.nodes, 1)
  {
    UpdateFacts(nodes, edges, adj, mapped, t, up);
    hide StateOk, UpdateOk, GraphOf, Square, EdgesBelow, Symmetric, FitsInt;
  }

  lemma {:induction false} DetoursRead(h: Adjacency, prev: nat, n: nat, t0: Table, t: Table, m: nat, j: nat)
    requires Symmetric(h, n) && UnitWeights(h, n) && Searched(h, prev, n, t0, t) && m < prev && j < prev
    ensures Detours(h, prev, n, m, j, t[m][prev..n], Column(t, prev, n, j))
  {
    var a, b := t[m][prev..n], Column(t, prev, n, j);
    forall k | 0 <= k < n - prev
      ensures Small(a[k]) && a[k] >= 1 && IsDistance(h, m, prev + k, a[k])
      ensures Small(b[k]) && b[k] >= 1 && IsDistance(h, prev + k, j, b[k])
    {
      var x := prev + k;
      assert CrossExact(h, n, t, x);
      assert a[k] == t[x][m] && b[k] == t[x][j];
      DistanceSymmetric(h, n, x, m, t[x][m]);
      DifferentNodesApart(h, n, x, m);
      DifferentNodesApart(h, n, x, j);
    }
  }

  /** One patched row of an old node: exact as intended, exact as written where that is safe. */
  lemma {:induction false} PatchedRow(r: Reading, g: Adjacency, h: Adjacency, prev: nat, n: nat, t0: Table, t1: Table, t2: Table, i: nat, m: nat)
    requires Grows(g, h, prev, n) && UnitWeights(h, n) && Searched(h, prev, n, t0, t1)
    requires RowExact(g, prev, t0, m) && RowPatched(r, t1, t2, prev, n, i, m)
    ensures r == Intended ==> RowExact(h, n, t2, m)
    ensures r == AsWritten ==> (RowExact(h, n, t2, m) <==> forall j :: 0 <= j < prev ==> SafeEntry(t1, prev, n, i, m, j))
  {
    forall j | prev <= j < n ensures IsDistance(h, m, j, t2[m][j]) && t2[m][j] <= INT_MAX {
      assert CrossExact(h, n, t1, j);
      DistanceSymmetric(h, n, j, m, t1[j][m]);
    }
    hide Grows, UnitWeights, IsDistance, Detours;
    forall j | 0 <= j < prev
      ensures t2[m][j] <= INT_MAX
      ensures r == Intended ==> IsDistance(h, m, j, t2[m][j])
      ensures r == AsWritten ==> (IsDistance(h, m, j, t2[m][j]) <==> SafeEntry(t1, prev, n, i, m, j))
    {
      PatchedEntry(r, g, h, prev, n, t0, t1, i, m, j);
    }
  }

  lemma {:induction false} PatchedEntry(r: Reading, g: Adjacency, h: Adjacency, prev: nat, n: nat, t0: Table, t1: Table, i: nat, m: nat, j: nat)
    requires Grows(g, h, prev, n) && UnitWeights(h, n) && Searched(h, prev, n, t0, t1)
    requires RowExact(g, prev, t0, m) && m < prev && j < prev
    ensures var d := PairValue(r, t1, prev, n, i, m, j);
            && d <= INT_MAX
            && (r == Intended ==> IsDistance(h, m, j, d))
            && (r == AsWritten ==> (IsDistance(h, m, j, d) <==> SafeEntry(t1, prev, n, i, m, j)))
  {
    var d, a, b := t1[m][j], t1[m][prev..n], Column(t1, prev, n, j);
    DetoursRead(h, prev, n, t0, t1, m, j);
    PatchedBelow(r, d, a, b);
    match r {
      case Intended => IntendedPatchIsExact(g, h, prev, n, i, m, j, d, a, b);
      case AsWritten => AsWrittenPatchIsExactIff(g, h, prev, n, i, m, j, d, a, b);
    }
  }

  lemma {:induction false} PatchedBelow(r: Reading, d: int, a: seq<int>, b: seq<int>)
    requires |a| == |b|
    ensures Patched(r, d, a, b) <= d
  {
    if a != [] {
      PatchedBelow(r, d, a[..|a| - 1], b[..|a| - 1]);
    }
  }

  lemma {:induction false} PatchedTable(r: Reading, g: Adjacency, h: Adjacency, prev: nat, n: nat, t0: Table, t1: Table, t2: Table,
                                       mapped: seq<nat>, news: seq<nat>, paths: seq<seq<seq<nat>>>)
    requires Grows(g, h, prev, n) && UnitWeights(h, n) && n <= MAX_NODES
    requires Square(t0) && Square(t1) && Square(t2) && NewRowsOk(h, n, t1, prev, n - prev, paths)
    requires SameOld(t0, t1, prev)
    requires forall i :: 0 <= i < |mapped| ==> mapped[i] < prev
    requires RowsExact(g, prev, t0, mapped)
    requires forall i :: 0 <= i < |news| ==> prev <= news[i] < n
    requires AllPatched(r, t1, t2, prev, n, mapped, |mapped|)
    requires SameNew(t1, t2, prev)
    ensures Searched(h, prev, n, t0, t1)
    ensures r == Intended ==> RowsExact(h, n, t2, mapped + news)
    ensures r == AsWritten ==> (RowsExact(h, n, t2, mapped + news) <==> AllSafe(t1, prev, n, mapped))
    ensures EntriesBounded(t1, mapped, prev)
  {
    forall x | prev <= x < n ensures CrossExact(h, n, t1, x) {
      assert RowDone(h, n, t1, prev, x, paths);
    }
    assert Searched(h, prev, n, t0, t1);
    var all := mapped + news;
    forall i | |mapped| <= i < |all| ensures RowExact(h, n, t2, all[i]) {
      assert all[i] == news[i - |mapped|];
      assert CrossExact(h, n, t1, all[i]);
      assert t2[all[i]] == t1[all[i]];
    }
    forall i | 0 <= i < |mapped|
      ensures r == Intended ==> RowExact(h, n, t2, all[i])
      ensures r == AsWritten ==> (RowExact(h, n, t2, all[i]) <==> forall j :: 0 <= j < prev ==> SafeEntry(t1, prev, n, i, mapped[i], j))
    {
      assert all[i] == mapped[i];
      PatchedRow(r, g, h, prev, n, t0, t1, t2, i, mapped[i]);
    }
    hide RowExact, SafeEntry;
    if RowsExact(h, n, t2, all) {
      forall i | 0 <= i < |mapped| ensures RowExact(h, n, t2, mapped[i]) {
        assert all[i] == mapped[i];
      }
    }
  }

  // What patching asks for after an update.
  lemma {:induction false} CanPatch(nodes: nat, edges: seq<(nat, nat)>, g: Adjacency, sources: seq<nat>, t: Table, up: Update)
    requires StateOk(nodes, edges, g, sources, t) && UpdateOk(nodes, edges, up)
    ensures nodes <= up.nodes <= MAX_NODES && EdgesBelow(up.edges, MAX_NODES) && Symmetric(GraphOf(up.edges), up.nodes)
    ensures Distinct(sources + up.mapped) && Below((sources + up.mapped)[..|sources|], nodes)
  {
    UpdateFacts(nodes, edges, g, sources, t, up);
    assert (sources + up.mapped)[..|sources|] == sources;
  }

  // Whatever was in the table before, the new state is well-formed and the new rows are exact.
  lemma {:induction false} UpdateShape(nodes: nat, edges: seq<(nat, nat)>, g: Adjacency, sources: seq<nat>, t0: Table, up: Update,
                                      t1: Table, t2: Table, paths: seq<seq<seq<nat>>>)
    requires StateOk(nodes, edges, g, sources, t0) && UpdateOk(nodes, edges, up)
    requires nodes <= up.nodes && EdgesBelow(up.edges, MAX_NODES) && NewRowsOk(GraphOf(up.edges), up.nodes, t1, nodes, up.nodes - nodes, paths)
    requires SameOld(t0, t1, nodes) && SameNew(t1, t2, nodes)
    ensures StateOk(up.nodes, up.edges, GraphOf(up.edges), sources + up.mapped, t2)
    ensures Searched(GraphOf(up.edges), nodes, up.nodes, t0, t1)
  {
    UpdateFacts(nodes, edges, g, sources, t0, up);
    hide GraphOf, Grows, UnitWeights, Symmetric, FitsInt, CrossExact;
    forall x | nodes <= x < up.nodes ensures CrossExact(GraphOf(up.edges), up.nodes, t1, x) {
      assert RowDone(GraphOf(up.edges), up.nodes, t1, nodes, x, paths);
    }
    var all := sources + up.mapped;
    assert forall i :: |sources| <= i < |all| ==> all[i] < up.nodes;
  }

  // Patching without new nodes does nothing.
  lemma {:induction false} NothingPatched(r: Reading, t: Table, n: nat, sources: seq<nat>)
    requires Square(t) && n <= MAX_NODES && forall i :: 0 <= i < |sources| ==> sources[i] < n
    ensures AllPatched(r, t, t, n, n, sources, |sources|)
  {
    forall i, j | 0 <= i < |sources| && 0 <= j < n ensures t[sources[i]][j] == PairValue(r, t, n, n, i, sources[i], j) {
      assert t[sources[i]][n..n] == [];
    }
  }

  /** What holds when an update has been taken: t0, t1, t2 are the tables before, after the searches
      and after the patching. */
  lemma {:induction false} UpdateDone(r: Reading, nodes: nat, edges: seq<(nat, nat)>, g: Adjacency, sources: seq<nat>, t0: Table, up: Update,
                                     t1: Table, t2: Table, paths: seq<seq<seq<nat>>>)
    requires StateOk(nodes, edges, g, sources, t0) && RowsExact(g, nodes, t0, sources) && UpdateOk(nodes, edges, up)
    requires nodes <= up.nodes && EdgesBelow(up.edges, MAX_NODES) && NewRowsOk(GraphOf(up.edges), up.nodes, t1, nodes, up.nodes - nodes, paths)
    requires SameOld(t0, t1, nodes) && SameNew(t1, t2, nodes)
    requires AllPatched(r, t1, t2, nodes, up.nodes, sources + up.mapped, |sources|)
    ensures var h, n, mapped := GraphOf(up.edges), up.nodes, sources + up.mapped;
            && StateOk(n, up.edges, h, mapped, t2) && Searched(h, nodes, n, t0, t1)
            && (r == Intended ==> RowsExact(h, n, t2, mapped))
            && (r == AsWritten ==> (RowsExact(h, n, t2, mapped) <==> AllSafe(t1, nodes, n, sources)))
            && EntriesBounded(t1, mapped[..|sources|], nodes)
  {
    UpdateFacts(nodes, edges, g, sources, t0, up);
    var mapped := sources + up.mapped;
    assert mapped[..|sources|] == sources;
    hide GraphOf, NewRowsOk, RowPatched, RowsExact, Searched, AllSafe, EntriesBounded, Grows, UnitWeights, Symmetric, FitsInt;
    PatchedPrefix(r, t1, t2, nodes, up.nodes, mapped, |sources|);
    assert forall i :: 0 <= i < |up.mapped| ==> mapped[|sources| + i] == up.mapped[i];
    PatchedTable(r, g, GraphOf(up.edges), nodes, up.nodes, t0, t1, t2, sources, up.mapped, paths);
  }

  // Stored distances between the given sources and the first n nodes are ints.
  ghost predicate EntriesBounded(t: Table, sources: seq<nat>, n: nat) {
    && n <= MAX_NODES && Square(t)
    && forall m, j :: m in sources && 0 <= j < n ==> m < MAX_NODES && t[m][j] <= INT_MAX
  }

  lemma {:induction false} PatchKeepsLine(g: Adjacency, t0: Table, t: Table, m: nat, before: seq<Line>, more: seq<Line>, sources: seq<nat>, line: Line)
    requires m !in sources && Square(t0) && Square(t)
    requires forall x :: 0 <= x < MAX_NODES && x != m ==> t[x] == t0[x]
    requires line in before ==> line.source in sources && LineOk(g, t0, line.source, line)
    requires line in more ==> LineOk(g, t, m, line)
    requires line in before + more
    ensures line.source in sources + [m] && LineOk(g, t, line.source, line)
  {
  }

  lemma {:induction false} RowPatchedFrom(r: Reading, t0: Table, t: Table, t': Table, prev: nat, n: nat, i: nat, m: nat)
    requires RowPatched(r, t, t', prev, n, i, m) && Square(t0)
    requires t[m] == t0[m] && forall x :: prev <= x < MAX_NODES ==> t[x] == t0[x]
    ensures RowPatched(r, t0, t', prev, n, i, m)
  {
    forall j | 0 <= j < prev ensures PairValue(r, t, prev, n, i, m, j) == PairValue(r, t0, prev, n, i, m, j) {
      assert Column(t, prev, n, j) == Column(t0, prev, n, j);
    }
  }

  lemma {:induction false} RowPatchedStays(r: Reading, t0: Table, t: Table, t': Table, prev: nat, n: nat, i: nat, m: nat)
    requires RowPatched(r, t0, t, prev, n, i, m) && Square(t') && t'[m] == t[m]
    ensures RowPatched(r, t0, t', prev, n, i, m)
  {
  }

  // Only the first j entries of row m may differ.
  ghost predicate SameButRow(t0: Table, t: Table, m: nat, prev: nat, j: nat) {
    && Square(t0) && Square(t) && m < prev <= MAX_NODES && j <= prev
    && (forall y :: j <= y < MAX_NODES ==> t[m][y] == t0[m][y])
    && (forall x :: 0 <= x < MAX_NODES && x != m ==> t[x] == t0[x])
  }

  // Entries 0..j-1 of row m have their final values.
  ghost predicate RowUpTo(r: Reading, t0: Table, t: Table, prev: nat, n: nat, i: nat, m: nat, j: nat) {
    && Square(t0) && Square(t) && m < prev <= n <= MAX_NODES && j <= prev
    && forall y :: 0 <= y < j ==> t[m][y] == PairValue(r, t0, prev, n, i, m, y)
  }

  ghost predicate SmallRow(t: Table, m: nat, prev: nat) {
    Square(t) && m < prev <= MAX_NODES && forall j :: 0 <= j < prev ==> t[m][j] <= INT_MAX
  }

  // The lines printed for row m so far are right.
  ghost predicate RowLines(g: Adjacency, t: Table, m: nat, lines: seq<Line>, j: nat) {
    forall line :: line in lines ==> line.target < j && LineOk(g, t, m, line)
  }

  lemma {:induction false} RowSkips(r: Reading, g: Adjacency, t0: Table, t: Table, prev: nat, n: nat, i: nat, m: nat, j: nat, lines: seq<Line>)
    requires SameButRow(t0, t, m, prev, j) && RowUpTo(r, t0, t, prev, n, i, m, j) && j < prev && Skips(r, i, m, j)
    ensures SameButRow(t0, t, m, prev, j + 1) && RowUpTo(r, t0, t, prev, n, i, m, j + 1)
    ensures RowLines(g, t, m, lines, j) ==> RowLines(g, t, m, lines, j + 1)
  {
    SkippedValue(r, t0, prev, n, i, m, j);
    hide PairValue, LineOk, Skips;
  }

  lemma {:induction false} RowSteps(r: Reading, g: Adjacency, t0: Table, t: Table, prev: nat, n: nat, i: nat, m: nat, j: nat, paths: seq<seq<seq<nat>>>)
    requires SameButRow(t0, t, m, prev, j) && RowUpTo(r, t0, t, prev, n, i, m, j) && j < prev
    requires NewRowsOk(g, n, t, prev, n - prev, paths)
    ensures var t' := Put(t, m, j, PairValue(r, t, prev, n, i, m, j));
            && SameButRow(t0, t', m, prev, j + 1) && RowUpTo(r, t0, t', prev, n, i, m, j + 1)
            && NewRowsOk(g, n, t', prev, n - prev, paths)
  {
    hide PairValue, NewRowsOk;
    SamePairValue(r, t0, t, prev, n, i, m, j);
    PutKeepsNewRows(g, n, t, prev, paths, m, j, PairValue(r, t, prev, n, i, m, j));
  }

  lemma {:induction false} LinesMore(g: Adjacency, t: Table, m: nat, lines: seq<Line>, more: seq<Line>, j: nat, d: int)
    requires m < |t| && j < |t[m]| && RowLines(g, t, m, lines, j)
    requires forall line :: line in more ==> line.target == j && LineOk(g, Put(t, m, j, d), m, line)
    ensures RowLines(g, Put(t, m, j, d), m, lines + more, j + 1)
  {
    hide LineOk;
    forall line | line in lines ensures line.target < j && LineOk(g, Put(t, m, j, d), m, line) {
      PutKeepsLine(g, t, m, line, j, d);
    }
  }

  lemma {:induction false} SkippedValue(r: Reading, t: Table, prev: nat, n: nat, i: nat, m: nat, j: nat)
    requires Square(t) && m < MAX_NODES && j < MAX_NODES && prev <= n <= MAX_NODES && Skips(r, i, m, j)
    ensures PairValue(r, t, prev, n, i, m, j) == t[m][j]
  {
  }

  lemma {:induction false} SamePairValue(r: Reading, t0: Table, t: Table, prev: nat, n: nat, i: nat, m: nat, j: nat)
    requires j < prev <= n <= MAX_NODES && SameButRow(t0, t, m, prev, j)
    ensures PairValue(r, t, prev, n, i, m, j) == PairValue(r, t0, prev, n, i, m, j)
  {
    assert t[m][prev..n] == t0[m][prev..n];
    assert Column(t, prev, n, j) == Column(t0, prev, n, j);
  }

  lemma {:induction false} PutKeepsNewRows(g: Adjacency, n: nat, t: Table, prev: nat, paths: seq<seq<seq<nat>>>, m: nat, j: nat, d: int)
    requires Square(t) && m < prev && j < prev <= n <= MAX_NODES && NewRowsOk(g, n, t, prev, n - prev, paths)
    ensures NewRowsOk(g, n, Put(t, m, j, d), prev, n - prev, paths)
  {
    var t' := Put(t, m, j, d);
    forall x | prev <= x < prev + (n - prev) ensures RowDone(g, n, t', prev, x, paths) {
      assert RowDone(g, n, t, prev, x, paths);
      PutKeepsCross(g, n, t, x, m, j, d);
      SamePaths(g, n, t, t', x, paths[x - prev]);
    }
  }

  lemma {:induction false} PutKeepsCross(g: Adjacency, n: nat, t: Table, x: nat, m: nat, j: nat, d: int)
    requires CrossExact(g, n, t, x) && m < MAX_NODES && j < MAX_NODES && x != m && x != j
    ensures CrossExact(g, n, Put(t, m, j, d), x) && Put(t, m, j, d)[x] == t[x]
  {
    hide IsDistance;
  }

  lemma {:induction false} PutKeepsLine(g: Adjacency, t: Table, m: nat, line: Line, j: nat, d: int)
    requires m < |t| && j < |t[m]| && line.target != j && LineOk(g, t, m, line)
    ensures LineOk(g, Put(t, m, j, d), m, line)
  {
  }

  lemma {:induction false} CrossIsRow(g: Adjacency, n: nat, t: Table, x: nat)
    requires CrossExact(g, n, t, x)
    ensures RowExact(g, n, t, x) && Square(t)
  {
  }

  lemma {:induction false} SamePaths(g: Adjacency, n: nat, t0: Table, t: Table, x: nat, paths: seq<seq<nat>>)
    requires PathsOk(g, n, t0, x, paths) && Square(t) && forall j :: 0 <= j < n ==> t[x][j] == t0[x][j]
    ensures PathsOk(g, n, t, x, paths)
  {
  }
}
