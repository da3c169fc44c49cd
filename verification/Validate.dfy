/**
  The result validator, for a breadth-first search. It rebuilds a depth map from
  the predecessors and checks every edge. What it accepts is characterised
  exactly: the search tree of the root's component, and outside it anything whose
  predecessors are neighbours.
*/
module Validate {
  import opened Common
  import opened Graph
  import Bfs

  /** A depth as the validator stores it: -1, a level, or FLT_MAX, which absorbs additions. */
  datatype Depth = Unset | At(n: nat) | Inf

  function Succ(x: Depth): (y: Depth) {
    match x
    case Unset => At(0)
    case At(n) => At(n + 1)
    case Inf => Inf
  }

  predicate Less(x: Depth, y: Depth) {
    match (x, y)
    case (Unset, Unset) => false
    case (Unset, _) => true
    case (At(m), At(n)) => m < n
    case (At(_), Inf) => true
    case _ => false
  }

  /** Edges come in both directions, as the construction kernel stores them. */
  ghost predicate Symmetric(g: Adjacency) {
    forall u, j :: 0 <= u < |g| && 0 <= j < |g[u]| ==> HasEdge(g, g[u][j].to, u)
  }

  ghost predicate HasEdge(g: Adjacency, u: int, v: int) {
    exists j :: IsEdge(g, u, j, v)
  }

  ghost predicate InRange(g: Adjacency, pred: seq<int>) {
    |pred| == |g| && forall v :: 0 <= v < |g| ==> -1 <= pred[v] < |g|
  }

  // ----- The depth map -----

  /** The depth of v agrees with the depth of its predecessor. */
  ghost predicate DepthAt(g: Adjacency, root: nat, pred: seq<int>, d: seq<Depth>, v: int)
    requires |d| == |g| == |pred| && InRange(g, pred) && 0 <= v < |g|
  {
    if v == root then d[v] == At(0)
    else if pred[v] == -1 then d[v] == Unset
    else if pred[v] == root then d[v] == At(1)
    else d[v] == if HasEdge(g, pred[v], v) && d[pred[v]].At? && d[pred[v]].n >= 1 then At(d[pred[v]].n + 1) else Inf
  }

  ghost predicate IsDepthMap(g: Adjacency, root: nat, pred: seq<int>, d: seq<Depth>)
  {
    |d| == |g| && InRange(g, pred) && forall v :: 0 <= v < |g| ==> DepthAt(g, root, pred, d, v)
  }

  /** The state of the level loop: levels up to k are final, level k + 1 is being filled. */
  ghost predicate PartialAt(g: Adjacency, root: nat, pred: seq<int>, d: seq<Depth>, k: nat, v: int)
    requires |d| == |g| == |pred| && InRange(g, pred) && 0 <= v < |g|
  {
    if v == root then d[v] == At(0)
    else if pred[v] == -1 then d[v] == Unset
    else if pred[v] == root then d[v] == At(1)
    else
      && (d[v] == Inf || d[v].At?)
      && (d[v].At? ==>
           HasEdge(g, pred[v], v) && d[pred[v]].At? && d[pred[v]].n >= 1 && d[v].n == d[pred[v]].n + 1 && d[v].n <= k + 1)
      && (d[v] == Inf && HasEdge(g, pred[v], v) && d[pred[v]].At? && d[pred[v]].n >= 1 ==> d[pred[v]].n >= k)
  }

  ghost predicate Partial(g: Adjacency, root: nat, pred: seq<int>, d: seq<Depth>, k: nat) {
    |d| == |g| && InRange(g, pred) && forall v :: 0 <= v < |g| ==> PartialAt(g, root, pred, d, k, v)
  }

  /** A vertex at the current level tells a neighbour that it may be its predecessor. */
  datatype Hint = Hint(from: nat, to: nat)

  /** The current level reaches a vertex through its predecessor. */
  ghost predicate Reaches(g: Adjacency, root: nat, pred: seq<int>, d: seq<Depth>, k: nat, v: nat)
    requires |d| == |g| && InRange(g, pred) && v < |g|
  {
    pred[v] >= 0 && pred[v] != root && d[v] == Inf && HasEdge(g, pred[v], v) && d[pred[v]] == At(k)
  }

  /** Every vertex that the current level should reach is reached or still hinted. */
  ghost predicate Hinted(g: Adjacency, root: nat, pred: seq<int>, d: seq<Depth>, k: nat, msgs: seq<Hint>)
    requires |d| == |g| && InRange(g, pred)
  {
    && (forall i :: 0 <= i < |msgs| ==>
        msgs[i].from < |g| && msgs[i].to < |g| && d[msgs[i].from] == At(k) && HasEdge(g, msgs[i].from, msgs[i].to))
    && (forall v: nat :: v < |g| && v != root && Reaches(g, root, pred, d, k, v) ==> Hint(pred[v], v) in msgs)
  }

  lemma HintKeepsPartial(g: Adjacency, root: nat, pred: seq<int>, d: seq<Depth>, k: nat, v: nat)
    requires Partial(g, root, pred, d, k) && v < |g| && k >= 1 && d[v] == Inf
    requires pred[v] >= 0 && d[pred[v]] == At(k) && HasEdge(g, pred[v], v)
    ensures Partial(g, root, pred, d[v := At(k + 1)], k)
  {
    hide HasEdge;
    var d' := d[v := At(k + 1)];
    assert PartialAt(g, root, pred, d, k, v);
    forall w | 0 <= w < |g| ensures PartialAt(g, root, pred, d', k, w) {
      assert PartialAt(g, root, pred, d, k, w);
    }
  }

  lemma HintKeepsHinted(g: Adjacency, root: nat, pred: seq<int>, d: seq<Depth>, k: nat, msgs: seq<Hint>, i: nat)
    requires |d| == |g| && InRange(g, pred) && Hinted(g, root, pred, d, k, msgs) && i < |msgs|
    ensures var m := msgs[i]; var rest := msgs[..i] + msgs[i + 1..];
      && (pred[m.to] == m.from && d[m.to] == Inf ==> Hinted(g, root, pred, d[m.to := At(k + 1)], k, rest))
      && (!(pred[m.to] == m.from && d[m.to] == Inf) ==> Hinted(g, root, pred, d, k, rest))
  {
    hide HasEdge;
    var m, rest := msgs[i], msgs[..i] + msgs[i + 1..];
    assert forall n :: 0 <= n < |rest| ==> rest[n] == msgs[if n < i then n else n + 1];
    forall h | h in msgs && h != m ensures h in rest {
      var n :| 0 <= n < |msgs| && msgs[n] == h;
      assert rest[if n < i then n else n - 1] == h;
    }
  }

  ghost predicate Bounded(d: seq<Depth>, k: nat) {
    forall v :: 0 <= v < |d| && d[v].At? ==> d[v].n <= k
  }

  ghost function Infinite(d: seq<Depth>): (s: set<int>) {
    set v | 0 <= v < |d| && d[v] == Inf
  }

  /** The send loop of one level of makedepthmapforbfs. */
  method SendHints(g: Adjacency, ghost root: nat, ghost pred: seq<int>, d: seq<Depth>, k: nat) returns (msgs: seq<Hint>)
    requires Valid(g) && |d| == |g| && InRange(g, pred)
    ensures Hinted(g, root, pred, d, k, msgs)
  {
    msgs := [];
    for u := 0 to |g|
      invariant forall i :: 0 <= i < |msgs| ==>
          msgs[i].from < |g| && msgs[i].to < |g| && d[msgs[i].from] == At(k) && HasEdge(g, msgs[i].from, msgs[i].to)
      invariant forall a: nat, j :: a < u && d[a] == At(k) && 0 <= j < |g[a]| ==> Hint(a, g[a][j].to) in msgs
    {
      if d[u] == At(k) {
        for j := 0 to |g[u]|
          invariant forall i :: 0 <= i < |msgs| ==>
              msgs[i].from < |g| && msgs[i].to < |g| && d[msgs[i].from] == At(k) && HasEdge(g, msgs[i].from, msgs[i].to)
          invariant forall a: nat, b :: a < u && d[a] == At(k) && 0 <= b < |g[a]| ==> Hint(a, g[a][b].to) in msgs
          invariant forall b :: 0 <= b < j ==> Hint(u, g[u][b].to) in msgs
        {
          assert IsEdge(g, u, j, g[u][j].to);
          msgs := msgs + [Hint(u, g[u][j].to)];
        }
      }
    }
    forall v: nat | v < |g| && v != root && Reaches(g, root, pred, d, k, v)
      ensures Hint(pred[v], v) in msgs
    {
      var j :| IsEdge(g, pred[v], j, v);
      assert Hint(pred[v], g[pred[v]][j].to) in msgs;
    }
  }

  /** frompredhndl for every hint of the level, in any order. */
  method DeliverHints(g: Adjacency, ghost root: nat, pred: seq<int>, d0: seq<Depth>, k: nat, msgs0: seq<Hint>)
    returns (d: seq<Depth>, newvisits: nat)
    requires Partial(g, root, pred, d0, k) && k >= 1 && Bounded(d0, k) && Hinted(g, root, pred, d0, k, msgs0)
    ensures Partial(g, root, pred, d, k) && Bounded(d, k + 1) && Hinted(g, root, pred, d, k, [])
    ensures newvisits == 0 ==> d == d0
    ensures newvisits > 0 ==> Infinite(d) < Infinite(d0)
  {
    hide PartialAt, HasEdge;
    d, newvisits := d0, 0;
    var msgs := msgs0;
    while msgs != []
      invariant Partial(g, root, pred, d, k) && Bounded(d, k + 1) && Hinted(g, root, pred, d, k, msgs)
      invariant newvisits == 0 ==> d == d0
      invariant Infinite(d) <= Infinite(d0) && (newvisits > 0 ==> Infinite(d) < Infinite(d0))
      decreases |msgs|
    {
      var i :| 0 <= i < |msgs|;
      var m := msgs[i];
      HintKeepsHinted(g, root, pred, d, k, msgs, i);
      if pred[m.to] == m.from && d[m.to] == Inf {
        HintKeepsPartial(g, root, pred, d, k, m.to);
        assert m.to in Infinite(d);
        d, newvisits := d[m.to := At(k + 1)], newvisits + 1;
      }
      msgs := msgs[..i] + msgs[i + 1..];
    }
  }

  /** makedepthmapforbfs. */
  method BuildDepths(g: Adjacency, root: nat, pred: seq<int>) returns (d: seq<Depth>)
    requires Valid(g) && root < |g| && InRange(g, pred)
    ensures |d| == |g| && IsDepthMap(g, root, pred, d)
  {
    d := [];
    for i := 0 to |g|
      invariant |d| == i
      invariant forall v :: 0 <= v < i ==> d[v] == if pred[v] == root then At(1) else if pred[v] == -1 then Unset else Inf
    {
      d := d + [if pred[i] == root then At(1) else if pred[i] == -1 then Unset else Inf];
    }
    d := d[root := At(0)];
    var newvisits, k := 1, 0;
    DepthsStart(g, root, pred, d);
    hide Partial, DepthAt;
    while newvisits != 0
      invariant |d| == |g| && Partial(g, root, pred, d, k + 1) && Bounded(d, k + 1)
      invariant newvisits == 0 ==> IsDepthMap(g, root, pred, d)
      decreases Infinite(d), newvisits
    {
      k := k + 1;
      ghost var d0 := d;
      var msgs := SendHints(g, root, pred, d, k);
      d, newvisits := DeliverHints(g, root, pred, d, k, msgs);
      LevelDone(g, root, pred, d, k);
      if newvisits == 0 {
        DepthsDone(g, root, pred, d, k);
      }
    }
  }

  lemma DepthsStart(g: Adjacency, root: nat, pred: seq<int>, d: seq<Depth>)
    requires |d| == |g| && InRange(g, pred) && root < |g|
    requires forall v :: 0 <= v < |g| ==>
        d[v] == if v == root then At(0) else if pred[v] == root then At(1) else if pred[v] == -1 then Unset else Inf
    ensures Partial(g, root, pred, d, 1) && Bounded(d, 1)
  {
  }

  lemma LevelDone(g: Adjacency, root: nat, pred: seq<int>, d: seq<Depth>, k: nat)
    requires Partial(g, root, pred, d, k) && Hinted(g, root, pred, d, k, [])
    ensures Partial(g, root, pred, d, k + 1)
  {
    hide HasEdge;
    var k' := k + 1;
    forall v | 0 <= v < |g| ensures PartialAt(g, root, pred, d, k', v) {
      assert PartialAt(g, root, pred, d, k, v);
    }
  }

  lemma DepthsDone(g: Adjacency, root: nat, pred: seq<int>, d: seq<Depth>, k: nat)
    requires Partial(g, root, pred, d, k + 1) && Bounded(d, k)
    ensures IsDepthMap(g, root, pred, d)
  {
    hide HasEdge;
    forall v | 0 <= v < |g| ensures DepthAt(g, root, pred, d, v) {
      assert PartialAt(g, root, pred, d, k + 1, v);
    }
  }

  // ----- The checks -----

  /** An edge between two unvisited vertices, or between visited ones whose depths differ by at most one. */
  ghost predicate EdgePasses(pred: seq<int>, d: seq<Depth>, u: int, v: int)
    requires |pred| == |d| && 0 <= u < |d| && 0 <= v < |d|
  {
    if pred[u] == -1 then pred[v] == -1
    else pred[v] != -1 && !Less(Succ(d[u]), d[v]) && !Less(Succ(d[v]), d[u])
  }

  /** An edge that leads from the recorded predecessor to a vertex one level deeper. */
  ghost predicate Confirms(pred: seq<int>, d: seq<Depth>, u: int, v: int)
    requires |pred| == |d| && 0 <= u < |d| && 0 <= v < |d|
  {
    pred[u] != -1 && pred[v] == u && d[v] == Succ(d[u])
  }

  ghost predicate Confirmed(g: Adjacency, root: nat, pred: seq<int>, d: seq<Depth>, v: int)
    requires |pred| == |d| == |g| && 0 <= v < |g| && Valid(g)
  {
    || (v == root && pred[v] == root && d[v] == At(0))
    || (exists u, j :: IsEdge(g, u, j, v) && Confirms(pred, d, u, v))
  }

  /** Everything the validator looks at is in order. */
  ghost predicate Passes(g: Adjacency, root: nat, pred: seq<int>, d: seq<Depth>) {
    && |pred| == |d| == |g| && root < |g| && Valid(g)
    && (forall v :: 0 <= v < |g| ==> (pred[v] == -1 <==> d[v] == Unset))
    && pred[root] == root && d[root] == At(0)
    && (forall u, j :: 0 <= u < |g| && 0 <= j < |g[u]| ==> EdgePasses(pred, d, u, g[u][j].to))
    && (forall v :: 0 <= v < |g| && pred[v] != -1 ==> Confirmed(g, root, pred, d, v))
  }

  /** What an accepted predecessor map is. */
  ghost predicate Correct(g: Adjacency, root: nat, pred: seq<int>)
    requires Valid(g)
  {
    && InRange(g, pred) && root < |g| && pred[root] == root
    && (forall v :: 0 <= v < |g| && v != root && Reachable(g, root, v) ==> TreeEdge(g, root, pred, v))
    && (forall v :: 0 <= v < |g| && !Reachable(g, root, v) && pred[v] != -1 ==> HasEdge(g, pred[v], v))
    && (forall u, j :: 0 <= u < |g| && 0 <= j < |g[u]| && !Reachable(g, root, u) ==> (pred[u] == -1 <==> pred[g[u][j].to] == -1))
  }

  /** The predecessor of v is a neighbour, one step closer to the root. */
  ghost predicate TreeEdge(g: Adjacency, root: nat, pred: seq<int>, v: int)
    requires |pred| == |g| && 0 <= v < |g|
  {
    HasEdge(g, pred[v], v) && exists c :: IsDistance(g, true, root, pred[v], c) && IsDistance(g, true, root, v, c + 1)
  }

  // ----- What passes is correct -----

  /** A finite depth is attained by the path of predecessors. */
  lemma {:induction false} DepthAttained(g: Adjacency, root: nat, pred: seq<int>, d: seq<Depth>, v: nat)
    requires IsDepthMap(g, root, pred, d) && Passes(g, root, pred, d) && v < |g| && d[v].At?
    ensures Attained(g, true, root, v, d[v].n)
    decreases d[v].n
  {
    assert DepthAt(g, root, pred, d, v);
    if v == root {
      AttainedStart(g, true, root);
    } else {
      assert Confirmed(g, root, pred, d, v);
      var u, j :| IsEdge(g, u, j, v) && Confirms(pred, d, u, v);
      assert d[u] != Unset;
      DepthAttained(g, root, pred, d, u);
      AttainedThen(g, true, root, u, j, v, d[u].n);
    }
  }

  ghost function Labels(d: seq<Depth>): (lab: seq<int>) {
    seq(|d|, v requires 0 <= v < |d| => if d[v].At? then d[v].n else -1)
  }

  lemma PassingRelaxed(g: Adjacency, root: nat, pred: seq<int>, d: seq<Depth>)
    requires Passes(g, root, pred, d)
    ensures AllRelaxed(g, true, Labels(d))
  {
    forall u, j | 0 <= u < |g| && 0 <= j < |g[u]| ensures EdgeRelaxed(g, true, Labels(d), u, j) {
      assert EdgePasses(pred, d, u, g[u][j].to);
    }
  }

  /** Finite depths are the distances, and exactly the root's component has them. */
  lemma PassingDepths(g: Adjacency, root: nat, pred: seq<int>, d: seq<Depth>, v: nat)
    requires IsDepthMap(g, root, pred, d) && Passes(g, root, pred, d) && v < |g|
    ensures d[v].At? <==> Reachable(g, root, v)
    ensures d[v].At? ==> IsDistance(g, true, root, v, d[v].n)
  {
    if d[v].At? {
      DepthAttained(g, root, pred, d, v);
    }
    PassingRelaxed(g, root, pred, d);
    LabelsAreDistances(g, true, Labels(d), root, v);
  }

  lemma PassingIsCorrect(g: Adjacency, root: nat, pred: seq<int>, d: seq<Depth>)
    requires IsDepthMap(g, root, pred, d) && Passes(g, root, pred, d)
    ensures Correct(g, root, pred)
  {
    hide IsDistance, Reachable, HasEdge, TreeEdge;
    forall v | 0 <= v < |g| && v != root && Reachable(g, root, v) ensures TreeEdge(g, root, pred, v) {
      PassingDepths(g, root, pred, d, v);
      PassingTreeEdge(g, root, pred, d, v);
    }
    forall v | 0 <= v < |g| && !Reachable(g, root, v) && pred[v] != -1 ensures HasEdge(g, pred[v], v) {
      PassingDepths(g, root, pred, d, v);
      PassingTreeEdge(g, root, pred, d, v);
    }
    forall u, j | 0 <= u < |g| && 0 <= j < |g[u]| ensures pred[u] == -1 <==> pred[g[u][j].to] == -1 {
      assert EdgePasses(pred, d, u, g[u][j].to);
    }
  }

  lemma PassingTreeEdge(g: Adjacency, root: nat, pred: seq<int>, d: seq<Depth>, v: nat)
    requires IsDepthMap(g, root, pred, d) && Passes(g, root, pred, d) && v < |g| && v != root && pred[v] != -1
    ensures HasEdge(g, pred[v], v)
    ensures Reachable(g, root, v) ==> TreeEdge(g, root, pred, v)
  {
    hide IsDistance, Reachable;
    assert Confirmed(g, root, pred, d, v);
    var u, j :| IsEdge(g, u, j, v) && Confirms(pred, d, u, v);
    PassingDepths(g, root, pred, d, v);
    PassingDepths(g, root, pred, d, u);
    assert DepthAt(g, root, pred, d, v);
  }

  // ----- What is correct passes -----

  lemma ReachableThen(g: Adjacency, root: int, u: int, v: int)
    requires Reachable(g, root, u) && HasEdge(g, u, v)
    ensures Reachable(g, root, v)
  {
    var walk :| IsWalk(g, root, walk, u);
    var j :| IsEdge(g, u, j, v);
    assert IsWalk(g, root, Then(walk, u, j), v);
  }

  lemma ReachableStart(g: Adjacency, root: int)
    ensures Reachable(g, root, root) && IsDistance(g, true, root, root, 0)
  {
    assert IsWalk(g, root, Start, root);
  }

  /** Only the root's component is given finite depths. */
  lemma {:induction false} DepthReachable(g: Adjacency, root: nat, pred: seq<int>, d: seq<Depth>, v: nat)
    requires Valid(g) && IsDepthMap(g, root, pred, d) && Correct(g, root, pred) && v < |g| && d[v].At?
    ensures Reachable(g, root, v)
    decreases d[v].n
  {
    hide TreeEdge, HasEdge, Reachable, IsDistance;
    assert DepthAt(g, root, pred, d, v);
    ReachableStart(g, root);
    if v != root && pred[v] != root {
      DepthReachable(g, root, pred, d, pred[v]);
      ReachableThen(g, root, pred[v], v);
    } else if v != root && !Reachable(g, root, v) {
      ReachableThen(g, root, root, v);
    }
  }

  /** A vertex at distance c is given depth c. */
  lemma {:induction false} DepthIsDistance(g: Adjacency, root: nat, pred: seq<int>, d: seq<Depth>, v: nat, c: nat)
    requires Valid(g) && IsDepthMap(g, root, pred, d) && Correct(g, root, pred) && v < |g| && IsDistance(g, true, root, v, c)
    ensures d[v] == At(c)
    decreases c
  {
    hide HasEdge;
    assert DepthAt(g, root, pred, d, v);
    ReachableStart(g, root);
    if v == root {
      DistanceUnique(g, true, root, v, c, 0);
    } else {
      assert TreeEdge(g, root, pred, v);
      var c' :| IsDistance(g, true, root, pred[v], c') && IsDistance(g, true, root, v, c' + 1);
      DistanceUnique(g, true, root, v, c, c' + 1);
      EdgeInRange(g, pred[v], v);
      DistanceNat(g, root, pred[v], c');
      DepthIsDistance(g, root, pred, d, pred[v], c');
      if pred[v] != root {
        DistanceZero(g, root, pred[v], c');
      } else {
        DistanceUnique(g, true, root, root, c', 0);
      }
    }
  }

  lemma EdgeInRange(g: Adjacency, u: int, v: int)
    requires Valid(g) && HasEdge(g, u, v)
    ensures 0 <= u < |g| && 0 <= v < |g|
  {
    var j :| IsEdge(g, u, j, v);
    assert g[u][j].to < |g|;
  }

  lemma DistanceNat(g: Adjacency, root: int, v: int, c: int)
    requires IsDistance(g, true, root, v, c)
    ensures c >= 0
  {
    var walk :| IsWalk(g, root, walk, v) && Total(g, true, walk) == c;
  }

  lemma DistanceZero(g: Adjacency, root: int, v: int, c: int)
    requires IsDistance(g, true, root, v, c) && v != root
    ensures c >= 1
  {
    var walk :| IsWalk(g, root, walk, v) && Total(g, true, walk) == c;
  }

  /** The depth of every vertex under a correct predecessor map. */
  lemma CorrectDepth(g: Adjacency, root: nat, pred: seq<int>, d: seq<Depth>, v: nat)
    requires Valid(g) && IsDepthMap(g, root, pred, d) && Correct(g, root, pred) && v < |g|
    ensures if Reachable(g, root, v) then d[v].At? && pred[v] != -1 && IsDistance(g, true, root, v, d[v].n)
            else d[v] == if pred[v] == -1 then Unset else Inf
  {
    hide IsDistance, Reachable, HasEdge;
    ReachableStart(g, root);
    assert DepthAt(g, root, pred, d, v);
    if Reachable(g, root, v) {
      if v == root {
      } else {
        assert TreeEdge(g, root, pred, v);
        EdgeInRange(g, pred[v], v);
        var c :| IsDistance(g, true, root, pred[v], c) && IsDistance(g, true, root, v, c + 1);
        DistanceNat(g, root, pred[v], c);
        DepthIsDistance(g, root, pred, d, v, c + 1);
      }
    } else if d[v].At? {
      DepthReachable(g, root, pred, d, v);
    }
  }

  lemma CorrectEdge(g: Adjacency, root: nat, pred: seq<int>, d: seq<Depth>, u: nat, j: nat)
    requires Valid(g) && Symmetric(g) && IsDepthMap(g, root, pred, d) && Correct(g, root, pred) && u < |g| && j < |g[u]|
    ensures EdgePasses(pred, d, u, g[u][j].to)
  {
    hide IsDistance, Reachable, HasEdge, TreeEdge, DepthAt;
    var v := g[u][j].to;
    assert HasEdge(g, u, v) by { EdgeOf(g, u, j); }
    assert HasEdge(g, v, u);
    CorrectDepth(g, root, pred, d, u);
    CorrectDepth(g, root, pred, d, v);
    if Reachable(g, root, u) {
      ReachableThen(g, root, u, v);
      Closer(g, root, u, v, d[u].n, d[v].n);
      Closer(g, root, v, u, d[v].n, d[u].n);
    } else if Reachable(g, root, v) {
      ReachableThen(g, root, v, u);
    }
  }

  lemma EdgeOf(g: Adjacency, u: nat, j: nat)
    requires u < |g| && j < |g[u]|
    ensures HasEdge(g, u, g[u][j].to)
  {
    assert IsEdge(g, u, j, g[u][j].to);
  }

  lemma Closer(g: Adjacency, root: int, u: int, v: int, c: int, c': int)
    requires HasEdge(g, u, v) && IsDistance(g, true, root, u, c) && IsDistance(g, true, root, v, c')
    ensures c' <= c + 1
  {
    var j :| IsEdge(g, u, j, v);
    AttainedThen(g, true, root, u, j, v, c);
  }

  lemma CorrectConfirmed(g: Adjacency, root: nat, pred: seq<int>, d: seq<Depth>, v: nat)
    requires Valid(g) && Symmetric(g) && IsDepthMap(g, root, pred, d) && Correct(g, root, pred) && v < |g| && pred[v] != -1
    ensures Confirmed(g, root, pred, d, v)
  {
    hide IsDistance, Reachable;
    if v == root {
      assert DepthAt(g, root, pred, d, v);
    } else {
      CorrectDepth(g, root, pred, d, v);
      assert Reachable(g, root, v) ==> TreeEdge(g, root, pred, v);
      EdgeInRange(g, pred[v], v);
      var u := pred[v];
      CorrectDepth(g, root, pred, d, u);
      var j :| IsEdge(g, u, j, v);
      if Reachable(g, root, v) {
        var c :| IsDistance(g, true, root, u, c) && IsDistance(g, true, root, v, c + 1);
        DistanceReachable(g, root, u, c);
        DistanceUnique(g, true, root, u, c, d[u].n);
        DistanceUnique(g, true, root, v, c + 1, d[v].n);
      } else {
        assert pred[u] == -1 <==> pred[g[u][j].to] == -1 by {
          if Reachable(g, root, u) { ReachableThen(g, root, u, v); }
        }
        if Reachable(g, root, u) { ReachableThen(g, root, u, v); }
      }
      assert Confirms(pred, d, u, v);
    }
  }

  lemma DistanceReachable(g: Adjacency, root: int, v: int, c: int)
    requires IsDistance(g, true, root, v, c)
    ensures Reachable(g, root, v)
  {
    var walk :| IsWalk(g, root, walk, v) && Total(g, true, walk) == c;
  }

  lemma CorrectPasses(g: Adjacency, root: nat, pred: seq<int>, d: seq<Depth>)
    requires Valid(g) && Symmetric(g) && IsDepthMap(g, root, pred, d) && Correct(g, root, pred)
    ensures Passes(g, root, pred, d)
  {
    hide IsDistance, Reachable, HasEdge, TreeEdge, EdgePasses, Confirmed;
    forall v | 0 <= v < |g| ensures pred[v] == -1 <==> d[v] == Unset {
      CorrectDepth(g, root, pred, d, v);
    }
    assert DepthAt(g, root, pred, d, root);
    forall u, j | 0 <= u < |g| && 0 <= j < |g[u]| ensures EdgePasses(pred, d, u, g[u][j].to) {
      CorrectEdge(g, root, pred, d, u, j);
    }
    forall v | 0 <= v < |g| && pred[v] != -1 ensures Confirmed(g, root, pred, d, v) {
      CorrectConfirmed(g, root, pred, d, v);
    }
  }

  // ----- The validator -----

  /** What the root check and the messages delivered so far have confirmed. */
  ghost predicate ConfirmedSoFar(g: Adjacency, root: nat, pred: seq<int>, d: seq<Depth>, todo: set<(nat, nat)>,
      confirmed: seq<bool>)
    requires |pred| == |d| == |g| && Valid(g)
  {
    && |confirmed| == |g|
    && (forall v :: 0 <= v < |g| && confirmed[v] ==> Confirmed(g, root, pred, d, v))
    && (root < |g| && pred[root] == root && d[root] == At(0) ==> confirmed[root])
    && (forall u: nat, j: nat :: u < |g| && j < |g[u]| && (u, j) !in todo && Confirms(pred, d, u, g[u][j].to) ==>
        confirmed[g[u][j].to])
  }

  /** Every edge sends its end the predecessor and depth of its start. */
  method SendEdges(g: Adjacency) returns (todo: set<(nat, nat)>)
    ensures forall u: nat, j: nat :: (u, j) in todo <==> u < |g| && j < |g[u]|
  {
    todo := {};
    for u := 0 to |g|
      invariant forall a: nat, b: nat :: (a, b) in todo <==> a < u && b < |g[a]|
    {
      for j := 0 to |g[u]|
        invariant forall a: nat, b: nat :: (a, b) in todo <==> (a < u && b < |g[a]|) || (a == u && b < j)
      {
        todo := todo + {(u, j)};
      }
    }
  }

  /** An edge with a visited end, seen from its smaller end. */
  predicate Counts(g: Adjacency, pred: seq<int>, m: (nat, nat))
    requires |pred| == |g| && Valid(g)
  {
    m.0 < |g| && m.1 < |g[m.0]| && m.0 < g[m.0][m.1].to && !(pred[m.0] == -1 && pred[g[m.0][m.1].to] == -1)
  }

  ghost function Counted(g: Adjacency, pred: seq<int>, ms: set<(nat, nat)>): (s: set<(nat, nat)>)
    requires |pred| == |g| && Valid(g)
    ensures forall m :: m in s <==> m in ms && Counts(g, pred, m)
  {
    set m | m in ms && Counts(g, pred, m)
  }

  ghost function AllEdges(g: Adjacency): (s: set<(nat, nat)>)
    ensures forall u: nat, j: nat :: (u, j) in s <==> u < |g| && j < |g[u]|
  {
    set u: nat, j: nat | u < |g| && j < |g[u]| :: (u, j)
  }

  /** How many edges the search has to have traversed. */
  ghost function Traversed(g: Adjacency, pred: seq<int>): (n: nat)
    requires |pred| == |g| && Valid(g)
  {
    |Counted(g, pred, AllEdges(g))|
  }

  lemma CountMore(g: Adjacency, pred: seq<int>, all: set<(nat, nat)>, todo: set<(nat, nat)>, m: (nat, nat))
    requires |pred| == |g| && Valid(g) && m in todo && todo <= all
    ensures |Counted(g, pred, all - (todo - {m}))| == |Counted(g, pred, all - todo)| + if Counts(g, pred, m) then 1 else 0
  {
    hide Counts;
    var before, after := Counted(g, pred, all - todo), Counted(g, pred, all - (todo - {m}));
    if Counts(g, pred, m) {
      assert after == before + {m};
    } else {
      assert after == before;
    }
  }

  /** edgepreddisthndl for every edge, in any order. */
  method DeliverEdges(g: Adjacency, ghost root: nat, pred: seq<int>, d: seq<Depth>, confirmed0: seq<bool>, todo0: set<(nat, nat)>)
    returns (confirmed: seq<bool>, errors: nat, traversed: nat)
    requires |pred| == |d| == |g| && Valid(g)
    requires forall u: nat, j: nat :: (u, j) in todo0 <==> u < |g| && j < |g[u]|
    requires ConfirmedSoFar(g, root, pred, d, todo0, confirmed0)
    ensures ConfirmedSoFar(g, root, pred, d, {}, confirmed)
    ensures errors == 0 <==> forall u, j :: 0 <= u < |g| && 0 <= j < |g[u]| ==> EdgePasses(pred, d, u, g[u][j].to)
    ensures traversed == Traversed(g, pred)
  {
    hide Confirmed, Less, Succ, Counts, Counted, AllEdges;
    confirmed, errors, traversed := confirmed0, 0, 0;
    var todo := todo0;
    NothingCounted(g, pred, todo0);
    while todo != {}
      invariant todo <= todo0 && traversed == |Counted(g, pred, todo0 - todo)|
      invariant ConfirmedSoFar(g, root, pred, d, todo, confirmed)
      invariant errors == 0 ==> forall u: nat, j: nat :: u < |g| && j < |g[u]| && (u, j) !in todo ==>
          EdgePasses(pred, d, u, g[u][j].to)
      invariant errors > 0 ==> exists u, j :: 0 <= u < |g| && 0 <= j < |g[u]| && !EdgePasses(pred, d, u, g[u][j].to)
      decreases |todo|
    {
      var m :| m in todo;
      var (u, j) := m;
      assert (u, j) in todo0;
      var v := g[u][j].to;
      CountMore(g, pred, todo0, todo, m);
      CountsWhen(g, pred, u, j);
      if !(pred[u] == -1 && pred[v] == -1) && u < v {
        traversed := traversed + 1;
      }
      if pred[u] == -1 && pred[v] == -1 {
      } else if pred[u] == -1 || pred[v] == -1 {
        assert !EdgePasses(pred, d, u, g[u][j].to);
        errors := errors + 1;
      } else {
        if pred[v] == u && d[v] == Succ(d[u]) {
          MessageConfirms(g, root, pred, d, u, j);
          confirmed := confirmed[v := true];
        }
        if Less(Succ(d[u]), d[v]) || Less(Succ(d[v]), d[u]) {
          assert !EdgePasses(pred, d, u, g[u][j].to);
          errors := errors + 1;
        }
      }
      todo := todo - {m};
    }
    SameEdges(g, todo0);
    assert todo0 - {} == todo0;
  }

  lemma SameEdges(g: Adjacency, ms: set<(nat, nat)>)
    requires forall u: nat, j: nat :: (u, j) in ms <==> u < |g| && j < |g[u]|
    ensures ms == AllEdges(g)
  {
    hide AllEdges;
    forall m ensures m in ms <==> m in AllEdges(g) {
      assert m == (m.0, m.1);
    }
  }

  lemma NothingCounted(g: Adjacency, pred: seq<int>, all: set<(nat, nat)>)
    requires |pred| == |g| && Valid(g)
    ensures |Counted(g, pred, all - all)| == 0
  {
    assert Counted(g, pred, all - all) == {};
  }

  lemma CountsWhen(g: Adjacency, pred: seq<int>, u: nat, j: nat)
    requires |pred| == |g| && Valid(g) && u < |g| && j < |g[u]|
    ensures Counts(g, pred, (u, j)) <==> u < g[u][j].to && !(pred[u] == -1 && pred[g[u][j].to] == -1)
  {
  }

  lemma MessageConfirms(g: Adjacency, root: nat, pred: seq<int>, d: seq<Depth>, u: nat, j: nat)
    requires |pred| == |d| == |g| && Valid(g) && u < |g| && j < |g[u]| && Confirms(pred, d, u, g[u][j].to)
    ensures Confirmed(g, root, pred, d, g[u][j].to)
  {
    assert IsEdge(g, u, j, g[u][j].to);
  }

  /** The checks that follow the depth map. */
  method Check(g: Adjacency, root: nat, pred: seq<int>, d: seq<Depth>, nedges: Option<int>) returns (errors: nat)
    requires Valid(g) && |pred| == |d| == |g| && root < |g|
    ensures errors == 0 <==> Passes(g, root, pred, d) && (nedges.Some? ==> nedges.value == Traversed(g, pred))
  {
    hide Confirmed, EdgePasses, Traversed;
    errors := 0;
    for v := 0 to |g|
      invariant errors == 0 <==> forall w :: 0 <= w < v ==> (pred[w] == -1 <==> d[w] == Unset)
    {
      if (pred[v] == -1 && d[v] != Unset) || (pred[v] != -1 && d[v] == Unset) {
        errors := errors + 1;
      }
    }
    var confirmed := seq(|g|, v => false);
    if pred[root] != root || d[root] != At(0) {
      errors := errors + 1;
    } else {
      RootConfirmed(g, root, pred, d);
      confirmed := confirmed[root := true];
    }
    var todo := SendEdges(g);
    var more, traversed;
    confirmed, more, traversed := DeliverEdges(g, root, pred, d, confirmed, todo);
    errors := errors + more;
    ConfirmedIsComplete(g, root, pred, d, confirmed);
    ghost var earlier := errors;
    for v := 0 to |g|
      invariant errors >= earlier
      invariant errors == 0 <==> earlier == 0 && forall w :: 0 <= w < v && pred[w] != -1 ==> Confirmed(g, root, pred, d, w)
    {
      if !confirmed[v] && pred[v] != -1 {
        errors := errors + 1;
      }
    }
    if nedges.Some? && nedges.value != traversed {
      errors := errors + 1;
    }
  }

  lemma RootConfirmed(g: Adjacency, root: nat, pred: seq<int>, d: seq<Depth>)
    requires |pred| == |d| == |g| && Valid(g) && root < |g| && pred[root] == root && d[root] == At(0)
    ensures Confirmed(g, root, pred, d, root)
  {
  }

  lemma ConfirmedIsComplete(g: Adjacency, root: nat, pred: seq<int>, d: seq<Depth>, confirmed: seq<bool>)
    requires |pred| == |d| == |g| && Valid(g) && ConfirmedSoFar(g, root, pred, d, {}, confirmed)
    ensures forall v :: 0 <= v < |g| ==> (confirmed[v] <==> Confirmed(g, root, pred, d, v))
  {
  }

  /** validate_result for a breadth-first search; the error count is never reset between calls. */
  method ValidateBfs(g: Adjacency, root: nat, pred: seq<int>, nedges: Option<int>,
      errors0: nat) returns (accepted: bool, errors: nat)
    requires Valid(g) && Symmetric(g) && |pred| == |g| && root < |g|
    ensures accepted <==> errors0 == 0 && Correct(g, root, pred) && (nedges.Some? ==> nedges.value == Traversed(g, pred))
    ensures accepted <==> errors == 0
  {
    hide Correct, Passes, IsDepthMap, Symmetric, Traversed;
    errors := errors0;
    for v := 0 to |g|
      invariant errors >= errors0
      invariant errors == 0 <==> errors0 == 0 && forall w :: 0 <= w < v ==> -1 <= pred[w] < |g|
    {
      if (pred[v] != -1 && pred[v] < 0) || pred[v] > |g| - 1 {
        errors := errors + 1;
      }
    }
    if errors > 0 {
      CorrectInRange(g, root, pred);
      return false, errors;
    }
    var d := BuildDepths(g, root, pred);
    var more := Check(g, root, pred, d, nedges);
    errors := errors + more;
    accepted := errors == 0;
    PassesIffCorrect(g, root, pred, d);
  }

  lemma CorrectInRange(g: Adjacency, root: nat, pred: seq<int>)
    requires Valid(g)
    ensures Correct(g, root, pred) ==> InRange(g, pred)
  {
  }

  /** The checks pass exactly on the correct predecessor maps. */
  lemma PassesIffCorrect(g: Adjacency, root: nat, pred: seq<int>, d: seq<Depth>)
    requires Valid(g) && Symmetric(g) && IsDepthMap(g, root, pred, d)
    ensures Passes(g, root, pred, d) <==> Correct(g, root, pred)
  {
    hide *;
    if Passes(g, root, pred, d) {
      PassingIsCorrect(g, root, pred, d);
    }
    if Correct(g, root, pred) {
      CorrectPasses(g, root, pred, d);
    }
  }

  // ----- When everything accepted is a search tree -----

  /** A search tree of the root's component, with nothing recorded elsewhere. */
  ghost predicate IsTree(g: Adjacency, root: nat, pred: seq<int>) {
    && InRange(g, pred) && root < |g| && pred[root] == root
    && (forall v :: 0 <= v < |g| && v != root ==>
          if Reachable(g, root, v) then TreeEdge(g, root, pred, v) else pred[v] == -1)
  }

  /** No edge lies outside the root's component. */
  ghost predicate EdgesReached(g: Adjacency, root: nat) {
    forall u :: 0 <= u < |g| && g[u] != [] ==> Reachable(g, root, u)
  }

  /** A search tree is accepted. */
  lemma TreeIsCorrect(g: Adjacency, root: nat, pred: seq<int>)
    requires Valid(g) && Symmetric(g) && IsTree(g, root, pred)
    ensures Correct(g, root, pred)
  {
    hide TreeEdge, HasEdge, Reachable;
    ReachableStart(g, root);
    forall u, j | 0 <= u < |g| && 0 <= j < |g[u]| && !Reachable(g, root, u)
      ensures pred[u] == -1 <==> pred[g[u][j].to] == -1
    {
      var v := g[u][j].to;
      assert HasEdge(g, v, u);
      if Reachable(g, root, v) {
        ReachableThen(g, root, v, u);
      }
    }
  }

  /** A vertex that some walk reaches has a distance. */
  lemma {:induction false} DistanceExists(g: Adjacency, root: int, v: int, walk: Walk) returns (least: Walk)
    requires IsWalk(g, root, walk, v)
    ensures IsWalk(g, root, least, v) && IsDistance(g, true, root, v, Total(g, true, least))
    decreases Total(g, true, walk)
  {
    if shorter :| IsWalk(g, root, shorter, v) && Total(g, true, shorter) < Total(g, true, walk) {
      least := DistanceExists(g, root, v, shorter);
    } else {
      least := walk;
    }
  }

  /** The last edge of a shortest walk can serve as a tree edge. */
  lemma TreeEdgeExists(g: Adjacency, root: nat, v: nat) returns (p: int)
    requires Valid(g) && root < |g| && v < |g| && v != root && Reachable(g, root, v)
    ensures IsParent(g, root, v, p)
  {
    var walk :| IsWalk(g, root, walk, v);
    var least := DistanceExists(g, root, v, walk);
    var Then(before, u, j) := least;
    forall other | IsWalk(g, root, other, u) ensures Total(g, true, before) <= Total(g, true, other) {
      assert IsWalk(g, root, Then(other, u, j), v);
    }
    assert IsDistance(g, true, root, u, Total(g, true, before));
    assert Total(g, true, least) == Total(g, true, before) + 1;
    p := u;
  }

  ghost predicate IsParent(g: Adjacency, root: nat, v: int, p: int) {
    HasEdge(g, p, v) && exists c :: IsDistance(g, true, root, p, c) && IsDistance(g, true, root, v, c + 1)
  }

  /** A parent in the root's component, any neighbour elsewhere. */
  ghost predicate Chosen(g: Adjacency, root: nat, v: int, p: int) {
    if v == root then p == root
    else if Reachable(g, root, v) then IsParent(g, root, v, p)
    else if exists q :: HasEdge(g, q, v) then HasEdge(g, p, v)
    else p == -1
  }

  lemma {:induction false} ChooseAll(g: Adjacency, root: nat, n: nat) returns (pred: seq<int>)
    requires Valid(g) && root < |g| && n <= |g|
    ensures |pred| == n && forall v :: 0 <= v < n ==> Chosen(g, root, v, pred[v])
  {
    hide HasEdge, IsParent, Reachable;
    if n == 0 {
      return [];
    }
    var v := n - 1;
    var earlier := ChooseAll(g, root, v);
    var p := -1;
    if v == root {
      p := root;
    } else if Reachable(g, root, v) {
      p := TreeEdgeExists(g, root, v);
    } else if q :| HasEdge(g, q, v) {
      p := q;
    }
    pred := earlier + [p];
  }

  lemma ChosenIsCorrect(g: Adjacency, root: nat, pred: seq<int>)
    requires Valid(g) && Symmetric(g) && root < |g| && |pred| == |g|
    requires forall v :: 0 <= v < |g| ==> Chosen(g, root, v, pred[v])
    ensures Correct(g, root, pred)
    ensures forall u :: 0 <= u < |g| && g[u] != [] ==> pred[u] != -1
  {
    hide HasEdge, IsDistance, Reachable;
    ReachableStart(g, root);
    forall u | 0 <= u < |g| && g[u] != [] ensures pred[u] != -1 {
      assert Chosen(g, root, u, pred[u]);
      assert HasEdge(g, g[u][0].to, u);
      if u != root {
        EdgeInRange(g, pred[u], u);
      }
    }
    forall v | 0 <= v < |g|
      ensures -1 <= pred[v] < |g|
      ensures v != root && Reachable(g, root, v) ==> TreeEdge(g, root, pred, v)
      ensures !Reachable(g, root, v) && pred[v] != -1 ==> HasEdge(g, pred[v], v)
    {
      assert Chosen(g, root, v, pred[v]);
      if v != root && HasEdge(g, pred[v], v) {
        EdgeInRange(g, pred[v], v);
      }
    }
    assert Chosen(g, root, root, pred[root]);
    forall u, j | 0 <= u < |g| && 0 <= j < |g[u]| ensures pred[g[u][j].to] != -1 {
      assert HasEdge(g, g[u][j].to, u);
      HasEdgeRow(g, g[u][j].to, u);
    }
  }

  lemma HasEdgeRow(g: Adjacency, u: int, v: int)
    requires HasEdge(g, u, v)
    ensures 0 <= u < |g| && g[u] != []
  {
  }

  /** The validator accepts search trees alone exactly when no edge lies outside the root's component. */
  lemma OnlyTreesIff(g: Adjacency, root: nat)
    requires Valid(g) && Symmetric(g) && root < |g|
    ensures (forall pred :: Correct(g, root, pred) ==> IsTree(g, root, pred)) <==> EdgesReached(g, root)
  {
    hide Reachable, TreeEdge, Chosen;
    ReachableStart(g, root);
    if EdgesReached(g, root) {
      forall pred | Correct(g, root, pred) ensures IsTree(g, root, pred) {
        forall v | 0 <= v < |g| && !Reachable(g, root, v) ensures pred[v] == -1 {
          if pred[v] != -1 {
            assert HasEdge(g, pred[v], v);
            HasEdgeRow(g, pred[v], v);
            ReachableThen(g, root, pred[v], v);
          }
        }
      }
    } else {
      var pred := ChooseAll(g, root, |g|);
      ChosenIsCorrect(g, root, pred);
      var u :| 0 <= u < |g| && g[u] != [] && !Reachable(g, root, u);
      assert pred[u] != -1;
      assert !IsTree(g, root, pred);
    }
  }

  /** Two vertices that name each other, away from the root, are accepted. */
  lemma StrayPairAccepted()
    ensures var g := [[], [Edge(2, 1)], [Edge(1, 1)]];
      Valid(g) && Symmetric(g) && Correct(g, 0, [0, 2, 1]) && !IsTree(g, 0, [0, 2, 1])
  {
    hide TreeEdge;
    var g := [[], [Edge(2, 1)], [Edge(1, 1)]];
    EdgeOf(g, 1, 0);
    EdgeOf(g, 2, 0);
    ReachableStart(g, 0);
    forall walk, v | IsWalk(g, 0, walk, v) ensures v == 0 {
      RootIsAlone(g, walk, v);
    }
  }

  lemma {:induction false} RootIsAlone(g: Adjacency, walk: Walk, v: int)
    requires |g| > 0 && g[0] == [] && IsWalk(g, 0, walk, v)
    ensures v == 0
  {
    match walk
    case Start =>
    case Then(before, u, j) => RootIsAlone(g, before, u);
  }

  /** What the breadth-first search leaves behind is a search tree, and so is accepted. */
  lemma SearchIsAccepted(g: Adjacency, root: nat, pred: seq<int>, d: seq<int>)
    requires Valid(g) && Symmetric(g) && root < |g| == |pred| == |d|
    requires forall v :: 0 <= v < |g| ==> Bfs.SearchResult(g, root, pred, d, v)
    ensures IsTree(g, root, pred) && Correct(g, root, pred)
  {
    hide Reachable, IsDistance, Correct;
    assert Bfs.SearchResult(g, root, pred, d, root);
    forall v | 0 <= v < |g| && v != root
      ensures -1 <= pred[v] < |g|
      ensures if Reachable(g, root, v) then TreeEdge(g, root, pred, v) else pred[v] == -1
    {
      assert Bfs.SearchResult(g, root, pred, d, v);
      if pred[v] != -1 {
        assert Bfs.ParentCloser(g, pred, d, v);
        var u := pred[v];
        assert Bfs.SearchResult(g, root, pred, d, u);
        var j :| IsEdge(g, u, j, v);
        assert HasEdge(g, g[u][j].to, u);
        ReachableThen(g, root, v, u);
        assert IsDistance(g, true, root, v, d[u] + 1);
      }
    }
    TreeIsCorrect(g, root, pred);
  }
}
