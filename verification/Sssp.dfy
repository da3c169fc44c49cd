/**
  Delta-stepping single-source shortest paths. Relaxations travel as active
  messages; within a phase the sends of all processes and the handling of
  messages interleave in any way. Weights and delta are exact integers.
*/
module Sssp {
  import opened Common
  import opened Graph

  /** Offer vertex `to` the distance `dist` along an edge from `from`. */
  datatype Relax = Relax(to: nat, dist: int, from: nat)

  /** An edge whose relaxation is still to be sent: edge j of vertex u. */
  datatype Todo = Todo(u: nat, j: nat)

  // ----- What every step keeps -----

  /** pred[v] offered v its distance, perhaps before its own distance dropped again. */
  ghost predicate ParentOk(g: Adjacency, pred: seq<int>, d: seq<int>, v: int)
    requires |pred| == |d| == |g| && 0 <= v < |g|
  {
    var u := pred[v];
    0 <= u < |g| && d[u] >= 0 && exists j :: IsEdge(g, u, j, v) && d[v] >= d[u] + Cost(g, false, u, j)
  }

  ghost predicate SoundAt(g: Adjacency, root: nat, pred: seq<int>, d: seq<int>, v: int)
    requires |pred| == |d| == |g| && 0 <= v < |g|
  {
    && d[v] >= -1 && (d[v] >= 0 <==> pred[v] != -1)
    && (d[v] >= 0 ==> Attained(g, false, root, v, d[v]))
    && (d[v] >= 0 && v != root ==> ParentOk(g, pred, d, v))
  }

  /** Every finite distance belongs to a walk. */
  ghost predicate Sound(g: Adjacency, root: nat, pred: seq<int>, d: seq<int>) {
    && Valid(g) && root < |g| == |pred| == |d| && d[root] == 0 && pred[root] == root
    && (forall v :: 0 <= v < |g| ==> SoundAt(g, root, pred, d, v))
  }

  /** Distances only drop, and nothing drops below lo. */
  ghost predicate Lowered(d0: seq<int>, d: seq<int>, lo: int) {
    && |d| == |d0|
    && (forall v :: 0 <= v < |d| ==> LoweredAt(d0, d, lo, v))
  }

  ghost predicate LoweredAt(d0: seq<int>, d: seq<int>, lo: int, v: int)
    requires |d| == |d0| && 0 <= v < |d|
  {
    d[v] == d0[v] || (d[v] >= lo && d[v] >= 0 && (d0[v] < 0 || d[v] < d0[v]))
  }

  /** An offer is backed by a walk and by an edge. */
  ghost predicate Offers(g: Adjacency, root: nat, d: seq<int>, lo: int, m: Relax) {
    && |d| == |g| && m.from < |g| && m.to < |g| && m.dist >= lo && m.dist >= 0 && d[m.from] >= 0
    && Attained(g, false, root, m.to, m.dist)
    && exists j :: IsEdge(g, m.from, j, m.to) && m.dist >= d[m.from] + Cost(g, false, m.from, j)
  }

  /** The queue for the next round holds, once each, the vertices that dropped into the bucket. */
  ghost predicate Requeued(d0: seq<int>, d: seq<int>, min: int, max: int, visited: seq<bool>, q: seq<nat>) {
    && |visited| == |d| == |d0| && NoDup(q)
    && (forall i :: 0 <= i < |q| ==> q[i] < |d| && visited[q[i]] && d[q[i]] != d0[q[i]] && min <= d[q[i]] < max)
    && (forall v :: 0 <= v < |d| && visited[v] ==> v in q)
    && (forall v :: 0 <= v < |d| && d[v] != d0[v] && d[v] < max ==> v in q)
  }

  // ----- The handler -----

  datatype Tables = Tables(d: seq<int>, pred: seq<int>, visited: seq<bool>, q2: seq<nat>)

  /** relaxhndl. */
  function Handle(t: Tables, m: Relax, light: bool, max: int): (r: Tables)
    requires m.to < |t.d| == |t.pred| == |t.visited|
  {
    if t.d[m.to] < 0 || t.d[m.to] > m.dist then
      var t := t.(d := t.d[m.to := m.dist], pred := t.pred[m.to := m.from]);
      if light && !t.visited[m.to] && m.dist < max then
        t.(q2 := t.q2 + [m.to], visited := t.visited[m.to := true])
      else t
    else t
  }

  lemma HandleSound(g: Adjacency, root: nat, t: Tables, m: Relax, light: bool, max: int, lo: int)
    requires Sound(g, root, t.pred, t.d) && |t.visited| == |g| && Offers(g, root, t.d, lo, m)
    ensures var r := Handle(t, m, light, max); Sound(g, root, r.pred, r.d) && |r.visited| == |g|
  {
    var r := Handle(t, m, light, max);
    assert SoundAt(g, root, t.pred, t.d, m.to) && SoundAt(g, root, t.pred, t.d, m.from);
    if r.d != t.d {
      var j :| IsEdge(g, m.from, j, m.to) && m.dist >= t.d[m.from] + Cost(g, false, m.from, j);
      forall v | 0 <= v < |g| ensures SoundAt(g, root, r.pred, r.d, v) {
        assert SoundAt(g, root, t.pred, t.d, v);
        if v == m.to {
          assert IsEdge(g, r.pred[v], j, v) && r.d[v] >= r.d[r.pred[v]] + Cost(g, false, r.pred[v], j);
        } else if t.d[v] >= 0 && v != root {
          var i :| IsEdge(g, t.pred[v], i, v) && t.d[v] >= t.d[t.pred[v]] + Cost(g, false, t.pred[v], i);
          assert IsEdge(g, r.pred[v], i, v) && r.d[v] >= r.d[r.pred[v]] + Cost(g, false, r.pred[v], i);
        }
      }
    }
  }

  lemma HandleLowers(d0: seq<int>, t: Tables, m: Relax, light: bool, max: int, lo: int)
    requires m.to < |t.d| == |t.pred| == |t.visited| && Lowered(d0, t.d, lo) && m.dist >= lo && m.dist >= 0
    ensures var r := Handle(t, m, light, max);
      && Lowered(d0, r.d, lo) && Lowered(t.d, r.d, lo) && 0 <= r.d[m.to] <= m.dist
  {
    var r := Handle(t, m, light, max);
    forall v | 0 <= v < |r.d| ensures LoweredAt(d0, r.d, lo, v) && LoweredAt(t.d, r.d, lo, v) {
      assert LoweredAt(d0, t.d, lo, v);
    }
  }

  lemma HandleRequeues(d0: seq<int>, t: Tables, m: Relax, min: int, max: int)
    requires m.to < |t.d| == |t.pred| == |t.visited| && m.dist >= min && m.dist >= 0
    requires Lowered(d0, t.d, min) && Requeued(d0, t.d, min, max, t.visited, t.q2)
    ensures var r := Handle(t, m, true, max); Requeued(d0, r.d, min, max, r.visited, r.q2)
  {
    assert LoweredAt(d0, t.d, min, m.to);
    if !(t.d[m.to] < 0 || t.d[m.to] > m.dist) {
    } else if t.visited[m.to] || m.dist >= max {
      LabelDrops(d0, t, m, min, max);
    } else {
      QueueGrows(d0, t, m, min, max);
    }
  }

  lemma LabelDrops(d0: seq<int>, t: Tables, m: Relax, min: int, max: int)
    requires m.to < |t.d| == |t.pred| == |t.visited| && min <= m.dist && (t.visited[m.to] || m.dist >= max)
    requires Requeued(d0, t.d, min, max, t.visited, t.q2) && (t.d[m.to] < 0 || t.d[m.to] > m.dist) &&
        (d0[m.to] < 0 || m.dist < d0[m.to]) && m.dist >= 0
    requires LoweredAt(d0, t.d, min, m.to)
    ensures Requeued(d0, t.d[m.to := m.dist], min, max, t.visited, t.q2)
  {
  }

  lemma QueueGrows(d0: seq<int>, t: Tables, m: Relax, min: int, max: int)
    requires m.to < |t.d| == |t.pred| == |t.visited| && min <= m.dist < max && !t.visited[m.to] && m.dist >= 0
    requires Requeued(d0, t.d, min, max, t.visited, t.q2) && (t.d[m.to] < 0 || t.d[m.to] > m.dist) &&
        (d0[m.to] < 0 || m.dist < d0[m.to])
    ensures Requeued(d0, t.d[m.to := m.dist], min, max, t.visited[m.to := true], t.q2 + [m.to])
  {
    var q := t.q2 + [m.to];
    assert q[|t.q2|] == m.to;
    assert forall v :: v in t.q2 ==> v in q;
  }

  lemma OfferStands(g: Adjacency, root: nat, d: seq<int>, d': seq<int>, lo: int, m: Relax)
    requires Offers(g, root, d, lo, m) && Lowered(d, d', lo)
    ensures Offers(g, root, d', lo, m)
  {
    hide Attained;
    var j :| IsEdge(g, m.from, j, m.to) && m.dist >= d[m.from] + Cost(g, false, m.from, j);
    assert LoweredAt(d, d', lo, m.from);
    assert IsEdge(g, m.from, j, m.to) && m.dist >= d'[m.from] + Cost(g, false, m.from, j);
  }

  // ----- One phase: sends and handlers until the barrier -----

  /** The light phase sends along light edges of the queue, the heavy phase along heavy edges of the bucket. */
  predicate Selected(g: Adjacency, light: bool, delta: int, min: int, max: int, d: seq<int>, x: Todo)
    requires |d| == |g| && x.u < |g| && x.j < |g[x.u]|
  {
    if light then g[x.u][x.j].w < delta else g[x.u][x.j].w >= delta && min <= d[x.u] < max
  }

  ghost predicate TodoOk(g: Adjacency, light: bool, min: int, d: seq<int>, todo: seq<Todo>)
  {
    |d| == |g| && forall i :: 0 <= i < |todo| ==> TodoOkAt(g, light, min, d, todo[i])
  }

  ghost predicate TodoOkAt(g: Adjacency, light: bool, min: int, d: seq<int>, x: Todo)
    requires |d| == |g|
  {
    x.u < |g| && x.j < |g[x.u]| && (light ==> d[x.u] >= min)
  }

  /** x needs no send any more, or waits as a send or as a message. */
  ghost predicate Covered(g: Adjacency, light: bool, delta: int, min: int, max: int, d0: seq<int>, d: seq<int>,
                          todo: seq<Todo>, msgs: seq<Relax>, x: Todo)
    requires Valid(g) && |d| == |d0| == |g| && x.u < |g| && x.j < |g[x.u]|
  {
    var e := g[x.u][x.j];
    d[x.u] == d0[x.u] && Selected(g, light, delta, min, max, d0, x) ==>
      x in todo || Relax(e.to, d0[x.u] + e.w, x.u) in msgs || 0 <= d[e.to] <= d0[x.u] + e.w
  }

  ghost predicate Progress(g: Adjacency, root: nat, light: bool, delta: int, min: int, max: int, d0: seq<int>, d: seq<int>,
                           todo0: seq<Todo>, todo: seq<Todo>, msgs: seq<Relax>) {
    && Valid(g) && |d| == |d0| == |g|
    && TodoOk(g, light, min, d0, todo0) && TodoOk(g, light, min, d, todo)
    && (forall i :: 0 <= i < |msgs| ==> Offers(g, root, d, Lo(light, min, max), msgs[i]))
    && (forall i :: 0 <= i < |todo0| ==> Covered(g, light, delta, min, max, d0, d, todo, msgs, todo0[i]))
  }

  /** No message of the phase carries less than this. */
  function Lo(light: bool, min: int, max: int): (lo: int) {
    if light then min else max
  }

  lemma InDropped<T>(s: seq<T>, i: nat, x: T)
    requires i < |s| && x in s && x != s[i]
    ensures x in s[..i] + s[i + 1..]
  {
    var n :| 0 <= n < |s| && s[n] == x;
    assert (s[..i] + s[i + 1..])[if n < i then n else n - 1] == x;
  }

  lemma TodoOkLowered(g: Adjacency, light: bool, min: int, max: int, d: seq<int>, d': seq<int>, todo: seq<Todo>)
    requires TodoOk(g, light, min, d, todo) && Lowered(d, d', Lo(light, min, max))
    ensures TodoOk(g, light, min, d', todo)
  {
    forall i | 0 <= i < |todo| ensures TodoOkAt(g, light, min, d', todo[i]) {
      assert TodoOkAt(g, light, min, d, todo[i]);
      assert LoweredAt(d, d', Lo(light, min, max), todo[i].u);
    }
  }

  /** Handling message i keeps the phase on track. */
  lemma HandleProgress(g: Adjacency, root: nat, light: bool, delta: int, min: int, max: int, d0: seq<int>, d: seq<int>,
      d': seq<int>,
                       todo0: seq<Todo>, todo: seq<Todo>, msgs: seq<Relax>, i: nat)
    requires Progress(g, root, light, delta, min, max, d0, d, todo0, todo, msgs) && i < |msgs|
    requires Lowered(d0, d, Lo(light, min, max)) && Lowered(d, d', Lo(light, min, max)) && msgs[i].to < |d'| &&
        0 <= d'[msgs[i].to] <= msgs[i].dist
    ensures Progress(g, root, light, delta, min, max, d0, d', todo0, todo, msgs[..i] + msgs[i + 1..])
  {
    hide Offers;
    var rest, lo := msgs[..i] + msgs[i + 1..], Lo(light, min, max);
    TodoOkLowered(g, light, min, max, d, d', todo);
    forall n | 0 <= n < |rest| ensures Offers(g, root, d', lo, rest[n]) {
      var m := rest[n];
      assert m == msgs[if n < i then n else n + 1];
      OfferStands(g, root, d, d', lo, m);
    }
    forall n | 0 <= n < |todo0| ensures Covered(g, light, delta, min, max, d0, d', todo, rest, todo0[n]) {
      var x := todo0[n];
      assert TodoOkAt(g, light, min, d0, x);
      CoveredAfterHandle(g, light, delta, min, max, d0, d, d', todo, msgs, i, x);
    }
  }

  lemma CoveredAfterHandle(g: Adjacency, light: bool, delta: int, min: int, max: int, d0: seq<int>, d: seq<int>, d': seq<int>,
                           todo: seq<Todo>, msgs: seq<Relax>, i: nat, x: Todo)
    requires Valid(g) && |d| == |d0| == |d'| == |g| && x.u < |g| && x.j < |g[x.u]| && i < |msgs|
    requires Covered(g, light, delta, min, max, d0, d, todo, msgs, x)
    requires Lowered(d0, d, Lo(light, min, max)) && Lowered(d, d', Lo(light, min, max)) && msgs[i].to < |d'| &&
        0 <= d'[msgs[i].to] <= msgs[i].dist
    ensures Covered(g, light, delta, min, max, d0, d', todo, msgs[..i] + msgs[i + 1..], x)
  {
    hide Selected;
    var e := g[x.u][x.j];
    var lo := Lo(light, min, max);
    assert LoweredAt(d0, d, lo, x.u) && LoweredAt(d, d', lo, x.u) && LoweredAt(d, d', lo, e.to);
    var m := Relax(e.to, d0[x.u] + e.w, x.u);
    if m in msgs && m != msgs[i] {
      InDropped(msgs, i, m);
    }
  }

  /** Sending entry i, or skipping it, keeps the phase on track. */
  lemma SendProgress(g: Adjacency, root: nat, light: bool, delta: int, min: int, max: int, d0: seq<int>, d: seq<int>,
                     todo0: seq<Todo>, todo: seq<Todo>, msgs: seq<Relax>, i: nat, msgs': seq<Relax>)
    requires Progress(g, root, light, delta, min, max, d0, d, todo0, todo, msgs) && i < |todo|
    requires TodoOkAt(g, light, min, d, todo[i])
    requires var x := todo[i]; var m := Relax(g[x.u][x.j].to, d[x.u] + g[x.u][x.j].w, x.u);
      if Selected(g, light, delta, min, max, d, x)
      then msgs' == msgs + [m] && Offers(g, root, d, Lo(light, min, max), m) else msgs' == msgs
    ensures Progress(g, root, light, delta, min, max, d0, d, todo0, todo[..i] + todo[i + 1..], msgs')
  {
    hide Offers;
    var x, rest := todo[i], todo[..i] + todo[i + 1..];
    forall n | 0 <= n < |rest| ensures TodoOkAt(g, light, min, d, rest[n]) {
      assert rest[n] == todo[if n < i then n else n + 1];
    }
    forall n | 0 <= n < |todo0| ensures Covered(g, light, delta, min, max, d0, d, rest, msgs', todo0[n]) {
      var y := todo0[n];
      assert TodoOkAt(g, light, min, d0, y) && Covered(g, light, delta, min, max, d0, d, todo, msgs, y);
      if y in todo && y != x {
        InDropped(todo, i, y);
      }
    }
  }

  /** The message that entry x sends is backed. */
  lemma SendOffers(g: Adjacency, root: nat, light: bool, delta: int, min: int, max: int, pred: seq<int>, d: seq<int>, x: Todo)
    requires Sound(g, root, pred, d) && TodoOkAt(g, light, min, d, x) && Selected(g, light, delta, min, max, d, x)
    requires 0 <= min && max == min + delta
    ensures Offers(g, root, d, Lo(light, min, max), Relax(g[x.u][x.j].to, d[x.u] + g[x.u][x.j].w, x.u))
  {
    assert SoundAt(g, root, pred, d, x.u);
    assert IsEdge(g, x.u, x.j, g[x.u][x.j].to);
    AttainedThen(g, false, root, x.u, x.j, g[x.u][x.j].to, d[x.u]);
  }

  /** Run one phase to its barrier; which send or handler comes next is left open. */
  method RunPhase(g: Adjacency, ghost root: nat, light: bool, delta: int, min: int, max: int, t0: Tables, todo0: seq<Todo>)
    returns (t: Tables)
    requires Sound(g, root, t0.pred, t0.d) && |t0.visited| == |g| && TodoOk(g, light, min, t0.d, todo0)
    requires 0 <= min && max == min + delta
    requires light ==> Requeued(t0.d, t0.d, min, max, t0.visited, t0.q2)
    ensures Sound(g, root, t.pred, t.d) && |t.visited| == |g| && Lowered(t0.d, t.d, Lo(light, min, max))
    ensures light ==> Requeued(t0.d, t.d, min, max, t.visited, t.q2)
    ensures Progress(g, root, light, delta, min, max, t0.d, t.d, todo0, [], [])
  {
    t := t0;
    var todo, msgs := todo0, [];
    PhaseStart(g, root, light, delta, min, max, t0.d, todo0);
    hide Offers, Covered, SoundAt, LoweredAt, Requeued, Selected, TodoOkAt, Progress;
    while todo != [] || msgs != []
      invariant Sound(g, root, t.pred, t.d) && |t.visited| == |g| && Lowered(t0.d, t.d, Lo(light, min, max))
      invariant light ==> Requeued(t0.d, t.d, min, max, t.visited, t.q2)
      invariant Progress(g, root, light, delta, min, max, t0.d, t.d, todo0, todo, msgs)
      decreases 2 * |todo| + |msgs|
    {
      var sendNext := *;
      if msgs == [] || (todo != [] && sendNext) {
        var i :| 0 <= i < |todo|;
        todo, msgs := SendOne(g, root, light, delta, min, max, t0.d, t, todo0, todo, msgs, i);
      } else {
        var i :| 0 <= i < |msgs|;
        t, msgs := HandleOne(g, root, light, delta, min, max, t0.d, t, todo0, todo, msgs, i);
      }
    }
  }

  lemma PhaseStart(g: Adjacency, root: nat, light: bool, delta: int, min: int, max: int, d0: seq<int>, todo0: seq<Todo>)
    requires Valid(g) && |d0| == |g| && TodoOk(g, light, min, d0, todo0)
    ensures Progress(g, root, light, delta, min, max, d0, d0, todo0, todo0, []) && Lowered(d0, d0, Lo(light, min, max))
  {
    assert forall i :: 0 <= i < |todo0| ==> TodoOkAt(g, light, min, d0, todo0[i]);
  }

  method SendOne(g: Adjacency, ghost root: nat, light: bool, delta: int, min: int, max: int, ghost d0: seq<int>, t: Tables,
                 ghost todo0: seq<Todo>, todo: seq<Todo>, msgs: seq<Relax>, i: nat) returns (todo': seq<Todo>, msgs': seq<Relax>)
    requires Sound(g, root, t.pred, t.d) && Progress(g, root, light, delta, min, max, d0, t.d, todo0, todo, msgs)
    requires 0 <= min && max == min + delta && i < |todo|
    ensures Progress(g, root, light, delta, min, max, d0, t.d, todo0, todo', msgs')
    ensures |todo'| == |todo| - 1 && |msgs'| <= |msgs| + 1
  {
    hide Offers, Covered, SoundAt;
    assert TodoOkAt(g, light, min, t.d, todo[i]);
    var x := todo[i];
    msgs' := msgs;
    if Selected(g, light, delta, min, max, t.d, x) {
      SendOffers(g, root, light, delta, min, max, t.pred, t.d, x);
      msgs' := msgs + [Relax(g[x.u][x.j].to, t.d[x.u] + g[x.u][x.j].w, x.u)];
    }
    SendProgress(g, root, light, delta, min, max, d0, t.d, todo0, todo, msgs, i, msgs');
    todo' := todo[..i] + todo[i + 1..];
  }

  method HandleOne(g: Adjacency, ghost root: nat, light: bool, delta: int, min: int, max: int, ghost d0: seq<int>, t: Tables,
                   ghost todo0: seq<Todo>, ghost todo: seq<Todo>, msgs: seq<Relax>, i: nat) returns (t': Tables,
                       msgs': seq<Relax>)
    requires Sound(g, root, t.pred, t.d) && |t.visited| == |g| && Lowered(d0, t.d, Lo(light, min, max))
    requires light ==> Requeued(d0, t.d, min, max, t.visited, t.q2)
    requires Progress(g, root, light, delta, min, max, d0, t.d, todo0, todo, msgs) && i < |msgs|
    ensures Sound(g, root, t'.pred, t'.d) && |t'.visited| == |g| && Lowered(d0, t'.d, Lo(light, min, max))
    ensures light ==> Requeued(d0, t'.d, min, max, t'.visited, t'.q2)
    ensures Progress(g, root, light, delta, min, max, d0, t'.d, todo0, todo, msgs')
    ensures |msgs'| == |msgs| - 1
  {
    hide Covered, SoundAt, LoweredAt, Requeued, TodoOkAt, Attained;
    var lo, m := Lo(light, min, max), msgs[i];
    assert Offers(g, root, t.d, lo, m);
    HandleSound(g, root, t, m, light, max, lo);
    HandleLowers(d0, t, m, light, max, lo);
    if light {
      HandleRequeues(d0, t, m, min, max);
    }
    t' := Handle(t, m, light, max);
    HandleProgress(g, root, light, delta, min, max, d0, t.d, t'.d, todo0, todo, msgs, i);
    msgs' := msgs[..i] + msgs[i + 1..];
  }

  // ----- Buckets -----

  /** Every edge that leaves a vertex below min is relaxed: those buckets are finished. */
  ghost predicate Settled(g: Adjacency, d: seq<int>, min: int)
    requires Valid(g) && |d| == |g|
  {
    forall u, j :: 0 <= u < |g| && 0 <= j < |g[u]| && d[u] < min ==> EdgeRelaxed(g, false, d, u, j)
  }

  /** Light edges of the bucket are relaxed, except those that leave the queue. */
  ghost predicate LightRelaxed(g: Adjacency, delta: int, d: seq<int>, min: int, max: int, q: seq<nat>)
    requires Valid(g) && |d| == |g|
  {
    forall u: nat, j :: u < |g| && 0 <= j < |g[u]| && min <= d[u] < max && g[u][j].w < delta && u !in q ==>
        EdgeRelaxed(g, false, d, u, j)
  }

  lemma RelaxedStays(g: Adjacency, d0: seq<int>, d: seq<int>, lo: int, u: int, j: int)
    requires Valid(g) && |d| == |d0| == |g| && 0 <= u < |g| && 0 <= j < |g[u]|
    requires Lowered(d0, d, lo) && d[u] == d0[u] && EdgeRelaxed(g, false, d0, u, j)
    ensures EdgeRelaxed(g, false, d, u, j)
  {
    assert LoweredAt(d0, d, lo, g[u][j].to);
  }

  lemma SettledStays(g: Adjacency, d0: seq<int>, d: seq<int>, min: int, lo: int)
    requires Valid(g) && |d| == |d0| == |g| && Settled(g, d0, min) && Lowered(d0, d, lo) && min <= lo
    ensures Settled(g, d, min)
  {
    hide EdgeRelaxed;
    forall u, j | 0 <= u < |g| && 0 <= j < |g[u]| && d[u] < min ensures EdgeRelaxed(g, false, d, u, j) {
      assert LoweredAt(d0, d, lo, u);
      RelaxedStays(g, d0, d, lo, u, j);
    }
  }

  /** What a finished phase has relaxed. */
  lemma PhaseRelaxed(g: Adjacency, root: nat, light: bool, delta: int, min: int, max: int, d0: seq<int>, d: seq<int>,
                     todo0: seq<Todo>, u: nat, j: nat)
    requires Progress(g, root, light, delta, min, max, d0, d, todo0, [], [])
    requires u < |g| && j < |g[u]| && Todo(u, j) in todo0 && d[u] == d0[u] && Selected(g, light, delta, min, max, d0, Todo(u, j))
    ensures EdgeRelaxed(g, false, d, u, j)
  {
    var i :| 0 <= i < |todo0| && todo0[i] == Todo(u, j);
    assert Covered(g, light, delta, min, max, d0, d, [], [], todo0[i]);
  }

  lemma LightRoundDone(g: Adjacency, root: nat, delta: int, min: int, max: int, d0: seq<int>, t: Tables, q1: seq<nat>,
      todo0: seq<Todo>)
    requires Progress(g, root, true, delta, min, max, d0, t.d, todo0, [], [])
    requires Lowered(d0, t.d, min) && Requeued(d0, t.d, min, max, t.visited, t.q2) && LightRelaxed(g, delta, d0, min, max, q1)
    requires forall u: nat, j: nat :: u in q1 && u < |g| && j < |g[u]| ==> Todo(u, j) in todo0
    ensures LightRelaxed(g, delta, t.d, min, max, t.q2)
  {
    hide EdgeRelaxed, Offers, Covered, TodoOkAt;
    forall u: nat, j | u < |g| && 0 <= j < |g[u]| && min <= t.d[u] < max && g[u][j].w < delta && u !in t.q2
      ensures EdgeRelaxed(g, false, t.d, u, j)
    {
      assert t.d[u] == d0[u];
      if u in q1 {
        PhaseRelaxed(g, root, true, delta, min, max, d0, t.d, todo0, u, j);
      } else {
        RelaxedStays(g, d0, t.d, min, u, j);
      }
    }
  }

  lemma HeavyPhaseDone(g: Adjacency, root: nat, delta: int, min: int, max: int, d0: seq<int>, d: seq<int>, todo0: seq<Todo>)
    requires Progress(g, root, false, delta, min, max, d0, d, todo0, [], [])
    requires Lowered(d0, d, max) && Settled(g, d0, min) && LightRelaxed(g, delta, d0, min, max, [])
    requires forall u: nat, j: nat :: u < |g| && j < |g[u]| ==> Todo(u, j) in todo0
    ensures Settled(g, d, max)
  {
    hide EdgeRelaxed, Offers, Covered, TodoOkAt;
    forall u, j | 0 <= u < |g| && 0 <= j < |g[u]| && d[u] < max ensures EdgeRelaxed(g, false, d, u, j) {
      assert LoweredAt(d0, d, max, u);
      if d0[u] >= min && g[u][j].w >= delta {
        PhaseRelaxed(g, root, false, delta, min, max, d0, d, todo0, u, j);
      } else {
        RelaxedStays(g, d0, d, max, u, j);
      }
    }
  }

  lemma LoweredTransitive(a: seq<int>, b: seq<int>, c: seq<int>, lo: int, lo': int)
    requires Lowered(a, b, lo) && Lowered(b, c, lo') && lo <= lo'
    ensures Lowered(a, c, lo)
  {
    forall v | 0 <= v < |a| ensures LoweredAt(a, c, lo, v) {
      assert LoweredAt(a, b, lo, v) && LoweredAt(b, c, lo', v);
    }
  }

  // ----- Termination -----

  ghost function Unreached(d: seq<int>): (n: nat) {
    if d == [] then 0 else Unreached(d[1..]) + if d[0] < 0 then 1 else 0
  }

  /** How far the labels from min on reach beyond it. */
  ghost function Beyond(d: seq<int>, min: int): (n: nat) {
    if d == [] then 0 else Beyond(d[1..], min) + if d[0] >= 0 && d[0] >= min then d[0] - min + 1 else 0
  }

  lemma LoweredTail(d0: seq<int>, d: seq<int>, lo: int)
    requires Lowered(d0, d, lo) && d != []
    ensures Lowered(d0[1..], d[1..], lo)
  {
    forall v | 0 <= v < |d| - 1 ensures LoweredAt(d0[1..], d[1..], lo, v) {
      assert LoweredAt(d0, d, lo, v + 1);
    }
  }

  /** A lower bound that has moved on, or a label that has dropped, shortens what lies ahead. */
  lemma {:induction false} LoweredMeasure(d0: seq<int>, d: seq<int>, lo: int, min: int, min': int)
    requires Lowered(d0, d, lo) && 0 <= min <= min'
    ensures Unreached(d) <= Unreached(d0)
    ensures Unreached(d) == Unreached(d0) ==> Beyond(d, min') <= Beyond(d0, min)
    ensures Unreached(d) == Unreached(d0) && min' > min && (exists v :: 0 <= v < |d0| && d0[v] >= min) ==>
        Beyond(d, min') < Beyond(d0, min)
    ensures Unreached(d) == Unreached(d0) && d != d0 && min <= lo ==> Beyond(d, min) < Beyond(d0, min)
  {
    if d != [] {
      LoweredTail(d0, d, lo);
      assert LoweredAt(d0, d, lo, 0);
      LoweredMeasure(d0[1..], d[1..], lo, min, min');
      if v :| 0 <= v < |d0| && d0[v] >= min {
        assert v > 0 ==> d0[1..][v - 1] == d0[v];
      }
      assert d == [d[0]] + d[1..] && d0 == [d0[0]] + d0[1..];
    }
  }

  // ----- The program -----

  /** The send loop of a light round: the edges of the queued vertices. */
  method LightTodo(g: Adjacency, min: int, d: seq<int>, q: seq<nat>) returns (todo: seq<Todo>)
    requires |d| == |g| && forall i :: 0 <= i < |q| ==> q[i] < |g| && d[q[i]] >= min
    ensures TodoOk(g, true, min, d, todo)
    ensures forall u: nat, j: nat :: u in q && u < |g| && j < |g[u]| ==> Todo(u, j) in todo
  {
    todo := [];
    for i := 0 to |q|
      invariant TodoOk(g, true, min, d, todo)
      invariant forall a, j: nat :: 0 <= a < i && j < |g[q[a]]| ==> Todo(q[a], j) in todo
    {
      var u := q[i];
      for j := 0 to |g[u]|
        invariant TodoOk(g, true, min, d, todo)
        invariant forall a, b: nat :: 0 <= a < i && b < |g[q[a]]| ==> Todo(q[a], b) in todo
        invariant forall b: nat :: b < j ==> Todo(u, b) in todo
      {
        todo := todo + [Todo(u, j)];
      }
    }
  }

  /** The send loop of a heavy phase: the edges of all vertices, tested when their turn comes. */
  method HeavyTodo(g: Adjacency, ghost min: int, ghost d: seq<int>) returns (todo: seq<Todo>)
    requires |d| == |g|
    ensures TodoOk(g, false, min, d, todo)
    ensures forall u: nat, j: nat :: u < |g| && j < |g[u]| ==> Todo(u, j) in todo
  {
    todo := [];
    for u := 0 to |g|
      invariant TodoOk(g, false, min, d, todo)
      invariant forall a: nat, j: nat :: a < u && j < |g[a]| ==> Todo(a, j) in todo
    {
      for j := 0 to |g[u]|
        invariant TodoOk(g, false, min, d, todo)
        invariant forall a: nat, b: nat :: a < u && b < |g[a]| ==> Todo(a, b) in todo
        invariant forall b: nat :: b < j ==> Todo(u, b) in todo
      {
        todo := todo + [Todo(u, j)];
      }
    }
  }

  /** The queue holds once each some vertices of the bucket. */
  ghost predicate InBucket(q: seq<nat>, d: seq<int>, min: int, max: int) {
    NoDup(q) && forall i :: 0 <= i < |q| ==> q[i] < |d| && min <= d[q[i]] < max
  }

  /** Light rounds until no vertex falls back into the bucket. */
  method LightRounds(g: Adjacency, ghost root: nat, delta: int, min: int, max: int, d0: seq<int>, pred0: seq<int>,
      q0: seq<nat>, sum0: nat)
    returns (d: seq<int>, pred: seq<int>)
    requires Sound(g, root, pred0, d0) && 0 <= min && max == min + delta && sum0 != 0
    requires InBucket(q0, d0, min, max) && LightRelaxed(g, delta, d0, min, max, q0)
    ensures Sound(g, root, pred, d) && Lowered(d0, d, min) && LightRelaxed(g, delta, d, min, max, [])
  {
    d, pred := d0, pred0;
    var q1, sum: nat := q0, sum0;
    assert Lowered(d0, d, min);
    hide Sound, LightRelaxed, Lowered, NoDup;
    while sum != 0
      invariant |d| == |g| && Sound(g, root, pred, d) && Valid(g) && Lowered(d0, d, min)
      invariant InBucket(q1, d, min, max) && LightRelaxed(g, delta, d, min, max, q1) && (sum == 0 ==> q1 == [])
      decreases Unreached(d), Beyond(d, min), sum
    {
      ghost var before := d;
      d, pred, q1 := LightRound(g, root, delta, min, max, d, pred, q1);
      LoweredTransitive(d0, before, d, min, min);
      LoweredMeasure(before, d, min, min, min);
      sum := |q1|;
    }
  }

  method LightRound(g: Adjacency, ghost root: nat, delta: int, min: int, max: int, d0: seq<int>, pred0: seq<int>, q1: seq<nat>)
    returns (d: seq<int>, pred: seq<int>, q2: seq<nat>)
    requires Sound(g, root, pred0, d0) && 0 <= min && max == min + delta && |d0| == |g| && Valid(g)
    requires InBucket(q1, d0, min, max) && LightRelaxed(g, delta, d0, min, max, q1)
    ensures Sound(g, root, pred, d) && |d| == |g| && Lowered(d0, d, min)
    ensures InBucket(q2, d, min, max) && LightRelaxed(g, delta, d, min, max, q2)
    ensures d == d0 ==> q2 == []
  {
    hide SoundAt, LightRelaxed, LoweredAt, Progress, TodoOk;
    var visited := seq(|g|, i => false);
    var todo := LightTodo(g, min, d0, q1);
    var t := RunPhase(g, root, true, delta, min, max, Tables(d0, pred0, visited, []), todo);
    LightRoundDone(g, root, delta, min, max, d0, t, q1, todo);
    d, pred, q2 := t.d, t.pred, t.q2;
    assert q2 != [] ==> d[q2[0]] != d0[q2[0]];
  }

  /** Collect the next bucket and count the vertices still to be processed. */
  method NextBucket(d: seq<int>, min: int, max: int) returns (q: seq<nat>, sum: nat)
    requires 0 <= min
    ensures InBucket(q, d, min, max)
    ensures forall v: nat :: v < |d| && min <= d[v] < max ==> v in q
    ensures sum == 0 <==> forall v :: 0 <= v < |d| ==> d[v] < min
  {
    q, sum := [], 0;
    for i := 0 to |d|
      invariant InBucket(q, d, min, max) && forall n :: 0 <= n < |q| ==> q[n] < i
      invariant forall v: nat :: v < i && min <= d[v] < max ==> v in q
      invariant sum == 0 <==> forall v :: 0 <= v < i ==> d[v] < min
    {
      if d[i] >= min {
        sum := sum + 1;
        if d[i] < max {
          q := q + [i];
        }
      }
    }
  }

  /** The distance of v, its tree edge, and -1 exactly when v cannot be reached. */
  ghost predicate ShortestAt(g: Adjacency, root: nat, pred: seq<int>, d: seq<int>, v: int)
    requires |pred| == |d| == |g| && 0 <= v < |g|
  {
    && (Reachable(g, root, v) <==> d[v] != -1)
    && (Reachable(g, root, v) ==> IsDistance(g, false, root, v, d[v]))
    && (Reachable(g, root, v) && v != root ==>
          0 <= pred[v] < |g| && exists j :: IsEdge(g, pred[v], j, v) && d[v] == d[pred[v]] + Cost(g, false, pred[v], j))
  }

  /** run_sssp, on cleaned distances and predecessors. */
  method Run(g: Adjacency, root: nat, delta: int) returns (pred: seq<int>, d: seq<int>)
    requires Valid(g) && root < |g| && delta > 0
    ensures |pred| == |d| == |g|
    ensures forall v :: 0 <= v < |g| ==> ShortestAt(g, root, pred, d, v)
  {
    d, pred := seq(|g|, i => -1)[root := 0], seq(|g|, i => -1)[root := root];
    var min, max := 0, delta;
    var q1: seq<nat>, sum := [root], 1;
    RunStart(g, root, delta, pred, d);
    hide SoundAt, LightRelaxed, Settled, LoweredAt, Progress, TodoOk, NoDup;
    while sum != 0
      invariant Sound(g, root, pred, d) && 0 <= min && max == min + delta
      invariant Settled(g, d, min) && InBucket(q1, d, min, max)
      invariant forall v: nat :: v < |d| && min <= d[v] < max ==> v in q1
      invariant sum == 0 <==> forall v :: 0 <= v < |d| ==> d[v] < min
      decreases Unreached(d), Beyond(d, min)
    {
      ghost var d0 := d;
      d, pred := ProcessBucket(g, root, delta, min, max, d, pred, q1, sum);
      LoweredMeasure(d0, d, min, min, max);
      min, max := max, max + delta;
      q1, sum := NextBucket(d, min, max);
    }
    RunDone(g, root, pred, d, min);
  }

  /** One turn of the outer loop. */
  method ProcessBucket(g: Adjacency, ghost root: nat, delta: int, min: int, max: int, d0: seq<int>, pred0: seq<int>,
      q1: seq<nat>, sum: nat)
    returns (d: seq<int>, pred: seq<int>)
    requires Sound(g, root, pred0, d0) && 0 <= min && max == min + delta && delta > 0 && sum != 0
    requires Settled(g, d0, min) && InBucket(q1, d0, min, max) && forall v: nat :: v < |d0| && min <= d0[v] < max ==> v in q1
    ensures Sound(g, root, pred, d) && Lowered(d0, d, min) && Settled(g, d, max)
  {
    assert LightRelaxed(g, delta, d0, min, max, q1);
    hide SoundAt, LightRelaxed, Settled, LoweredAt, Progress, TodoOk, NoDup;
    d, pred := LightRounds(g, root, delta, min, max, d0, pred0, q1, sum);
    ghost var d1 := d;
    SettledStays(g, d0, d1, min, min);
    var todo := HeavyTodo(g, min, d);
    var t := RunPhase(g, root, false, delta, min, max, Tables(d, pred, seq(|g|, i => false), []), todo);
    d, pred := t.d, t.pred;
    HeavyPhaseDone(g, root, delta, min, max, d1, d, todo);
    LoweredTransitive(d0, d1, d, min, max);
  }

  lemma RunStart(g: Adjacency, root: nat, delta: int, pred: seq<int>, d: seq<int>)
    requires Valid(g) && root < |g| == |pred| == |d| && delta > 0
    requires forall v :: 0 <= v < |g| ==> d[v] == (if v == root then 0 else -1) && pred[v] == (if v == root then root else -1)
    ensures Sound(g, root, pred, d) && Settled(g, d, 0) && InBucket([root], d, 0, delta)
  {
    AttainedStart(g, false, root);
  }

  lemma RunDone(g: Adjacency, root: nat, pred: seq<int>, d: seq<int>, min: int)
    requires Sound(g, root, pred, d) && Settled(g, d, min) && forall v :: 0 <= v < |d| ==> d[v] < min
    ensures forall v :: 0 <= v < |g| ==> ShortestAt(g, root, pred, d, v)
  {
    hide Attained, IsDistance, Reachable;
    assert AllRelaxed(g, false, d);
    forall v | 0 <= v < |g| ensures ShortestAt(g, root, pred, d, v) {
      assert SoundAt(g, root, pred, d, v);
      LabelsAreDistances(g, false, d, root, v);
      if d[v] >= 0 && v != root {
        var j :| IsEdge(g, pred[v], j, v) && d[v] >= d[pred[v]] + Cost(g, false, pred[v], j);
        assert EdgeRelaxed(g, false, d, pred[v], j);
      }
    }
  }
}
