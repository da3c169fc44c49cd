/**
  The level-synchronous breadth-first search. Visits travel as active messages
  that may be handled in any order before the barrier that ends a level. A visit
  does not depend on what other visits did, so a level first collects its
  messages and then delivers them in an order that is left open.
*/
module Bfs {
  import opened Common
  import opened Graph

  datatype Visit = Visit(to: nat, from: nat)

  /** The tree edge into v comes from a vertex one level closer. */
  ghost predicate ParentCloser(g: Adjacency, pred: seq<int>, d: seq<int>, v: int)
    requires |pred| == |d| == |g| && 0 <= v < |g|
  {
    var u := pred[v];
    0 <= u < |g| && d[u] == d[v] - 1 && exists j :: IsEdge(g, u, j, v)
  }

  /** The tables describe a partial search tree; d holds the level of each visited vertex, or -1. */
  ghost predicate Tree(g: Adjacency, root: nat, visited: seq<bool>, pred: seq<int>, d: seq<int>) {
    && Valid(g) && root < |g| == |visited| == |pred| == |d|
    && d[root] == 0 && pred[root] == root
    && (forall v :: 0 <= v < |g| ==> TreeAt(g, root, visited, pred, d, v))
  }

  ghost predicate TreeAt(g: Adjacency, root: nat, visited: seq<bool>, pred: seq<int>, d: seq<int>, v: int)
    requires |visited| == |pred| == |d| == |g| && 0 <= v < |g|
  {
    && (visited[v] <==> d[v] >= 0) && (visited[v] <==> pred[v] != -1)
    && (visited[v] ==> Attained(g, true, root, v, d[v]))
    && (visited[v] && v != root ==> ParentCloser(g, pred, d, v))
  }

  /** The queue holds each vertex of a level once. */
  ghost predicate IsLevel(q: seq<nat>, d: seq<int>, k: int) {
    && NoDup(q)
    && (forall i :: 0 <= i < |q| ==> q[i] < |d| && d[q[i]] == k)
    && (forall v :: 0 <= v < |d| && d[v] == k ==> v in q)
  }

  /** Edges that leave levels below k lead to visited vertices at most one level down. */
  ghost predicate ClosedBelow(g: Adjacency, d: seq<int>, k: int)
    requires |d| == |g| && Valid(g)
  {
    && (forall v :: 0 <= v < |g| ==> d[v] <= k)
    && (forall u, j :: 0 <= u < |g| && 0 <= j < |g[u]| && d[u] < k ==> EdgeRelaxed(g, true, d, u, j))
  }

  /** A message announces an edge that leaves the current level. */
  ghost predicate Announces(g: Adjacency, d: seq<int>, k: int, m: Visit) {
    m.from < |d| == |g| && d[m.from] == k && exists j :: IsEdge(g, m.from, j, m.to)
  }

  /** Every edge that leaves the current level is answered or still announced. */
  ghost predicate Pending(g: Adjacency, d: seq<int>, k: int, msgs: seq<Visit>)
    requires |d| == |g| && Valid(g)
  {
    && (forall i :: 0 <= i < |msgs| ==> Announces(g, d, k, msgs[i]))
    && (forall u, j :: 0 <= u < |g| && 0 <= j < |g[u]| && d[u] == k ==> d[g[u][j].to] >= 0 || Visit(g[u][j].to, u) in msgs)
  }

  /** What has happened since the level began: only unvisited vertices changed, to level k + 1. */
  ghost predicate Grown(d0: seq<int>, d: seq<int>, k: int) {
    && |d| == |d0|
    && (forall v :: 0 <= v < |d| ==> d[v] == d0[v] || (d0[v] < 0 && d[v] == k + 1))
    && (forall v :: 0 <= v < |d| ==> d0[v] <= k)
  }

  // ----- One visit -----

  lemma VisitKeepsTree(g: Adjacency, root: nat, visited: seq<bool>, pred: seq<int>, d: seq<int>, k: nat, m: Visit)
    requires Tree(g, root, visited, pred, d) && Announces(g, d, k, m) && m.to < |g| && !visited[m.to]
    ensures Tree(g, root, visited[m.to := true], pred[m.to := m.from], d[m.to := k + 1])
  {
    var visited', pred', d' := visited[m.to := true], pred[m.to := m.from], d[m.to := k + 1];
    assert TreeAt(g, root, visited, pred, d, m.to) && TreeAt(g, root, visited, pred, d, m.from);
    var j :| IsEdge(g, m.from, j, m.to);
    AttainedThen(g, true, root, m.from, j, m.to, k);
    forall v | 0 <= v < |g| ensures TreeAt(g, root, visited', pred', d', v) {
      assert TreeAt(g, root, visited, pred, d, v);
      if v == m.to {
        assert IsEdge(g, pred'[v], j, v);
      } else if visited[v] && v != root {
        assert d[pred[v]] >= 0;
        assert pred[v] != m.to by { assert TreeAt(g, root, visited, pred, d, pred[v]); }
      }
    }
  }

  lemma VisitKeepsQueue(q: seq<nat>, d: seq<int>, k: int, v: nat)
    requires IsLevel(q, d, k + 1) && v < |d| && d[v] < 0 && k >= 0
    ensures IsLevel(q + [v], d[v := k + 1], k + 1)
  {
  }

  lemma {:induction false} VisitKeepsPending(g: Adjacency, d: seq<int>, k: int, msgs: seq<Visit>, v: nat)
    requires |d| == |g| && Valid(g) && Pending(g, d, k, msgs) && v < |g| && d[v] < 0 && k >= 0
    ensures Pending(g, d[v := k + 1], k, msgs)
  {
    var d' := d[v := k + 1];
    forall i | 0 <= i < |msgs| ensures Announces(g, d', k, msgs[i]) {
      assert Announces(g, d, k, msgs[i]);
    }
  }

  lemma AnsweredIsDone(g: Adjacency, d: seq<int>, k: int, msgs: seq<Visit>, i: nat)
    requires |d| == |g| && Valid(g) && Pending(g, d, k, msgs) && i < |msgs| && msgs[i].to < |d| && d[msgs[i].to] >= 0
    ensures Pending(g, d, k, msgs[..i] + msgs[i + 1..])
  {
    var rest := msgs[..i] + msgs[i + 1..];
    forall m | m in msgs && m != msgs[i] ensures m in rest {
      var n :| 0 <= n < |msgs| && msgs[n] == m;
      assert rest[if n < i then n else n - 1] == m;
    }
  }

  class Search {
    const g: Adjacency
    var visited: seq<bool>
    var pred: seq<int>
    var q1: seq<nat>
    var q2: seq<nat>
    /** The level of each visited vertex, and every vertex ever queued. */
    ghost var d: seq<int>
    ghost var queued: seq<nat>

    ghost predicate Queued()
      reads this
    {
      && |visited| == |g| && NoDup(queued)
      && (forall i :: 0 <= i < |queued| ==> queued[i] < |g| && visited[queued[i]])
      && (forall v :: 0 <= v < |g| && visited[v] ==> v in queued)
    }

    constructor (g: Adjacency)
      ensures this.g == g && pred == seq(|g|, i => -1)
    {
      this.g := g;
      visited, pred, d := seq(|g|, i => false), seq(|g|, i => -1), seq(|g|, i => -1);
      q1, q2, queued := [], [], [];
    }

    /** visithndl. */
    method Handle(ghost root: nat, ghost k: nat, m: Visit)
      requires Tree(g, root, visited, pred, d) && Announces(g, d, k, m) && IsLevel(q2, d, k + 1) && Queued()
      modifies this
      ensures Tree(g, root, visited, pred, d) && IsLevel(q2, d, k + 1) && Queued()
      ensures m.to < |g| && d[m.to] >= 0 && q1 == old(q1)
      ensures d == if old(d)[m.to] < 0 then old(d)[m.to := k + 1] else old(d)
    {
      hide IsLevel, NoDup;
      EdgeInRange(g, d, k, m);
      assert TreeAt(g, root, visited, pred, d, m.to);
      if !visited[m.to] {
        VisitKeepsTree(g, root, visited, pred, d, k, m);
        VisitKeepsQueue(q2, d, k, m.to);
        VisitKeepsLog(queued, visited, m.to);
        visited := visited[m.to := true];
        q2 := q2 + [m.to];
        pred := pred[m.to := m.from];
        d := d[m.to := k + 1];
        queued := queued + [m.to];
      }
    }

    /** The send loop of one level. */
    method SendVisits(ghost k: nat) returns (msgs: seq<Visit>)
      requires Valid(g) && |d| == |g| && IsLevel(q1, d, k)
      ensures Pending(g, d, k, msgs)
    {
      msgs := [];
      for i := 0 to |q1|
        invariant forall n :: 0 <= n < |msgs| ==> Announces(g, d, k, msgs[n])
        invariant forall a, j :: 0 <= a < i && 0 <= j < |g[q1[a]]| ==> Visit(g[q1[a]][j].to, q1[a]) in msgs
      {
        var u := q1[i];
        for j := 0 to |g[u]|
          invariant forall n :: 0 <= n < |msgs| ==> Announces(g, d, k, msgs[n])
          invariant forall a, b :: 0 <= a < i && 0 <= b < |g[q1[a]]| ==> Visit(g[q1[a]][b].to, q1[a]) in msgs
          invariant forall b :: 0 <= b < j ==> Visit(g[u][b].to, u) in msgs
        {
          assert IsEdge(g, u, j, g[u][j].to);
          msgs := msgs + [Visit(g[u][j].to, u)];
        }
      }
    }

    /** aml_barrier: handle every outstanding visit, in any order. */
    method DeliverVisits(ghost root: nat, ghost k: nat, msgs0: seq<Visit>)
      requires Tree(g, root, visited, pred, d) && IsLevel(q2, d, k + 1) && Queued()
      requires |d| == |g| && Pending(g, d, k, msgs0) && forall v :: 0 <= v < |d| ==> d[v] <= k
      modifies this
      ensures Tree(g, root, visited, pred, d) && IsLevel(q2, d, k + 1) && Queued() && q1 == old(q1)
      ensures Grown(old(d), d, k) && Pending(g, d, k, [])
    {
      hide IsLevel, NoDup, Announces, ParentCloser, Queued, TreeAt;
      var msgs := msgs0;
      while msgs != []
        invariant Tree(g, root, visited, pred, d) && IsLevel(q2, d, k + 1) && Queued() && q1 == old(q1)
        invariant Grown(old(d), d, k) && Pending(g, d, k, msgs)
        decreases |msgs|
      {
        var i :| 0 <= i < |msgs|;
        ghost var d0 := d;
        Handle(root, k, msgs[i]);
        if d0[msgs[i].to] < 0 {
          VisitKeepsPending(g, d0, k, msgs, msgs[i].to);
        }
        AnsweredIsDone(g, d, k, msgs, i);
        msgs := msgs[..i] + msgs[i + 1..];
      }
    }

    ghost function Unseen(): (s: set<int>)
      reads this
    {
      set v | 0 <= v < |d| && d[v] < 0
    }

    /** run_bfs, on a cleaned predecessor map. */
    method Run(root: nat)
      requires Valid(g) && root < |g| && pred == seq(|g|, i => -1)
      modifies this
      ensures |pred| == |d| == |g|
      ensures forall v :: 0 <= v < |g| ==> SearchResult(g, root, pred, d, v)
      ensures NoDup(queued) && forall v: nat :: v in queued <==> Reachable(g, root, v)
    {
      visited, d := seq(|g|, i => false), seq(|g|, i => -1);
      q1, q2 := [root], [];
      pred := pred[root := root];
      visited := visited[root := true];
      d, queued := d[root := 0], [root];
      StartIsTree(g, root, visited, pred, d);
      var sum := 1;
      ghost var k := 0;
      hide IsLevel, Tree, ClosedBelow, Pending, Grown;
      while sum != 0
        invariant Tree(g, root, visited, pred, d) && |d| == |g| && ClosedBelow(g, d, k) && Queued()
        invariant IsLevel(q1, d, k) && q2 == [] && sum == |q1|
        decreases Unseen(), sum
      {
        ghost var d0 := d;
        LevelStart(g, d, k);
        var msgs := SendVisits(k);
        DeliverVisits(root, k, msgs);
        LevelDone(g, d0, d, k, q2);
        q1, q2 := q2, [];
        sum := |q1|;
        k := k + 1;
      }
      SearchDone(g, root, visited, pred, d, k, q1);
      SearchLog(g, root, visited, pred, d, queued);
    }
  }

  /** pred is set exactly on reachable vertices, d is their distance, and pred is one level closer. */
  ghost predicate SearchResult(g: Adjacency, root: nat, pred: seq<int>, d: seq<int>, v: int)
    requires |pred| == |d| == |g| && 0 <= v < |g|
  {
    && (v == root ==> pred[v] == root)
    && (pred[v] != -1 <==> Reachable(g, root, v))
    && (pred[v] != -1 ==> IsDistance(g, true, root, v, d[v]))
    && (pred[v] != -1 && v != root ==> ParentCloser(g, pred, d, v))
  }

  lemma StartIsTree(g: Adjacency, root: nat, visited: seq<bool>, pred: seq<int>, d: seq<int>)
    requires Valid(g) && root < |g| == |visited| == |pred| == |d|
    requires forall v :: 0 <= v < |g| ==> visited[v] == (v == root)
    requires forall v :: 0 <= v < |g| ==> pred[v] == (if v == root then root else -1) && d[v] == (if v == root then 0 else -1)
    ensures Tree(g, root, visited, pred, d) && ClosedBelow(g, d, 0) && IsLevel([root], d, 0)
  {
    AttainedStart(g, true, root);
  }

  lemma LevelStart(g: Adjacency, d: seq<int>, k: nat)
    requires |d| == |g| && Valid(g) && ClosedBelow(g, d, k)
    ensures IsLevel([], d, k + 1) && forall v :: 0 <= v < |d| ==> d[v] <= k
  {
  }

  /** When a level's messages are gone, the next level is complete. */
  lemma LevelDone(g: Adjacency, d0: seq<int>, d: seq<int>, k: nat, q2: seq<nat>)
    requires |d0| == |d| == |g| && Valid(g) && ClosedBelow(g, d0, k) && Grown(d0, d, k) && Pending(g, d, k, [])
    requires IsLevel(q2, d, k + 1)
    ensures ClosedBelow(g, d, k + 1)
    ensures var unseen := set v | 0 <= v < |d| && d[v] < 0; var unseen0 := set v | 0 <= v < |d0| && d0[v] < 0;
            unseen < unseen0 || (unseen == unseen0 && q2 == [])
  {
    forall u, j | 0 <= u < |g| && 0 <= j < |g[u]| && d[u] < k + 1 ensures EdgeRelaxed(g, true, d, u, j) {
      if d[u] < k {
        assert EdgeRelaxed(g, true, d0, u, j);
      }
    }
    var unseen, unseen0 := set v | 0 <= v < |d| && d[v] < 0, set v | 0 <= v < |d0| && d0[v] < 0;
    if q2 != [] {
      assert q2[0] in unseen0 && q2[0] !in unseen;
    } else {
      assert forall v :: 0 <= v < |d| ==> d[v] == d0[v];
    }
  }

  lemma SearchDone(g: Adjacency, root: nat, visited: seq<bool>, pred: seq<int>, d: seq<int>, k: int, q: seq<nat>)
    requires Tree(g, root, visited, pred, d) && ClosedBelow(g, d, k) && IsLevel(q, d, k) && q == []
    ensures forall v :: 0 <= v < |g| ==> SearchResult(g, root, pred, d, v)
  {
    hide Attained, IsDistance, ParentCloser, NoDup;
    assert AllRelaxed(g, true, d);
    forall v | 0 <= v < |g| ensures SearchResult(g, root, pred, d, v) {
      assert TreeAt(g, root, visited, pred, d, v);
      LabelsAreDistances(g, true, d, root, v);
    }
  }

  lemma SearchLog(g: Adjacency, root: nat, visited: seq<bool>, pred: seq<int>, d: seq<int>, queued: seq<nat>)
    requires Tree(g, root, visited, pred, d)
    requires forall v :: 0 <= v < |g| ==> SearchResult(g, root, pred, d, v)
    requires forall i :: 0 <= i < |queued| ==> queued[i] < |g| && visited[queued[i]]
    requires forall v :: 0 <= v < |g| && visited[v] ==> v in queued
    ensures forall v: nat :: v in queued <==> Reachable(g, root, v)
  {
    hide Attained, IsDistance, ParentCloser, Reachable;
    forall v: nat ensures v in queued <==> Reachable(g, root, v) {
      if v < |g| {
        assert TreeAt(g, root, visited, pred, d, v) && SearchResult(g, root, pred, d, v);
      } else {
        NothingOutside(g, root, v);
      }
    }
  }

  lemma NothingOutside(g: Adjacency, root: nat, v: nat)
    requires Valid(g) && root < |g| <= v
    ensures !Reachable(g, root, v)
  {
  }

  lemma EdgeInRange(g: Adjacency, d: seq<int>, k: int, m: Visit)
    requires Valid(g) && Announces(g, d, k, m)
    ensures m.to < |g|
  {
    var j :| IsEdge(g, m.from, j, m.to);
  }

  lemma VisitKeepsLog(queued: seq<nat>, visited: seq<bool>, v: nat)
    requires NoDup(queued) && v < |visited| && !visited[v]
    requires forall i :: 0 <= i < |queued| ==> queued[i] < |visited| && visited[queued[i]]
    ensures NoDup(queued + [v])
  {
  }
}
