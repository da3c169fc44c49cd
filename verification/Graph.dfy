/**
  Weighted directed graphs, walks in them, and the least cost of reaching a
  vertex: the meaning that the traversal kernels and the validator share.
*/
module Graph {

  datatype Edge = Edge(to: nat, w: nat)

  /** Row u lists the edges that leave vertex u. */
  type Adjacency = seq<seq<Edge>>

  ghost predicate Valid(g: Adjacency) {
    forall u, j :: 0 <= u < |g| && 0 <= j < |g[u]| ==> g[u][j].to < |g|
  }

  /** Edge j of vertex u leads to v. */
  ghost predicate IsEdge(g: Adjacency, u: int, j: int, v: int) {
    0 <= u < |g| && 0 <= j < |g[u]| && g[u][j].to == v
  }

  /** Unit costs count edges; otherwise an edge costs its weight. */
  function Cost(g: Adjacency, unit: bool, u: int, j: int): (c: nat)
    requires 0 <= u < |g| && 0 <= j < |g[u]|
  {
    if unit then 1 else g[u][j].w
  }

  /** A walk, from its start to its last edge. */
  datatype Walk = Start | Then(before: Walk, u: int, j: int)

  ghost predicate IsWalk(g: Adjacency, root: int, walk: Walk, v: int) {
    match walk
    case Start => v == root
    case Then(before, u, j) => IsEdge(g, u, j, v) && IsWalk(g, root, before, u)
  }

  ghost function Total(g: Adjacency, unit: bool, walk: Walk): (c: nat) {
    match walk
    case Start => 0
    case Then(before, u, j) =>
      Total(g, unit, before) + if 0 <= u < |g| && 0 <= j < |g[u]| then Cost(g, unit, u, j) else 0
  }

  ghost predicate Reachable(g: Adjacency, root: int, v: int) {
    exists walk :: IsWalk(g, root, walk, v)
  }

  /** Some walk reaches v at cost c. */
  ghost predicate Attained(g: Adjacency, unit: bool, root: int, v: int, c: int) {
    exists walk :: IsWalk(g, root, walk, v) && Total(g, unit, walk) == c
  }

  /** c is the least cost of reaching v. */
  ghost predicate IsDistance(g: Adjacency, unit: bool, root: int, v: int, c: int) {
    && Attained(g, unit, root, v, c)
    && forall walk :: IsWalk(g, root, walk, v) ==> c <= Total(g, unit, walk)
  }

  lemma AttainedStart(g: Adjacency, unit: bool, root: int)
    ensures Attained(g, unit, root, root, 0)
  {
    assert IsWalk(g, root, Start, root);
  }

  lemma AttainedThen(g: Adjacency, unit: bool, root: int, u: int, j: int, v: int, c: int)
    requires Attained(g, unit, root, u, c) && IsEdge(g, u, j, v)
    ensures Attained(g, unit, root, v, c + Cost(g, unit, u, j))
  {
    var walk :| IsWalk(g, root, walk, u) && Total(g, unit, walk) == c;
    assert IsWalk(g, root, Then(walk, u, j), v);
  }

  // ----- Labellings -----

  /** Edge j of u can no longer lower the label of its end; negative labels mean "not reached". */
  ghost predicate EdgeRelaxed(g: Adjacency, unit: bool, d: seq<int>, u: int, j: int)
    requires |d| == |g| && Valid(g) && 0 <= u < |g| && 0 <= j < |g[u]|
  {
    var v := g[u][j].to;
    d[u] >= 0 ==> 0 <= d[v] <= d[u] + Cost(g, unit, u, j)
  }

  ghost predicate AllRelaxed(g: Adjacency, unit: bool, d: seq<int>)
    requires |d| == |g| && Valid(g)
  {
    forall u, j :: 0 <= u < |g| && 0 <= j < |g[u]| ==> EdgeRelaxed(g, unit, d, u, j)
  }

  /** When no edge can be relaxed, labels are lower bounds. */
  lemma {:induction false} RelaxedIsLowerBound(g: Adjacency, unit: bool, d: seq<int>, root: int, walk: Walk, v: int)
    requires |d| == |g| && Valid(g) && 0 <= root < |g| && d[root] == 0 && AllRelaxed(g, unit, d)
    requires IsWalk(g, root, walk, v)
    ensures 0 <= v < |g| && 0 <= d[v] <= Total(g, unit, walk)
  {
    match walk
    case Start =>
    case Then(before, u, j) =>
      RelaxedIsLowerBound(g, unit, d, root, before, u);
      assert EdgeRelaxed(g, unit, d, u, j);
  }

  /** Labels that are attained and cannot be relaxed are the distances. */
  lemma LabelsAreDistances(g: Adjacency, unit: bool, d: seq<int>, root: int, v: int)
    requires |d| == |g| && Valid(g) && 0 <= root < |g| && 0 <= v < |g| && d[root] == 0 && AllRelaxed(g, unit, d)
    requires d[v] >= 0 ==> Attained(g, unit, root, v, d[v])
    ensures d[v] >= 0 <==> Reachable(g, root, v)
    ensures d[v] >= 0 ==> IsDistance(g, unit, root, v, d[v])
  {
    hide AllRelaxed;
    forall walk | IsWalk(g, root, walk, v) ensures 0 <= d[v] <= Total(g, unit, walk) {
      RelaxedIsLowerBound(g, unit, d, root, walk, v);
    }
  }

  /** Distances are unique. */
  lemma DistanceUnique(g: Adjacency, unit: bool, root: int, v: int, c: int, c': int)
    requires IsDistance(g, unit, root, v, c) && IsDistance(g, unit, root, v, c')
    ensures c == c'
  {
    var w :| IsWalk(g, root, w, v) && Total(g, unit, w) == c;
    var w' :| IsWalk(g, root, w', v) && Total(g, unit, w') == c';
  }
}
