/**
  The construction of the compressed rows: a counting pass, prefix sums that turn the
  counts into write cursors, and a placing pass, with both passes delivered in any order.
*/
module Csr {

  datatype Edge = Edge(v0: nat, v1: nat, w: int)

  /** The other end of an edge, and its weight. */
  datatype End = End(v: nat, w: int)

  /** A half edge as it is sent to the owner of its source. */
  datatype Half = Half(rank: nat, vloc: nat, tgt: End)

  /** The halves of all edges that are not loops; vertices are dealt out to the ranks in turn. */
  function Halves(edges: seq<Edge>, ranks: nat): (hs: seq<Half>)
    requires ranks > 0
  {
    if edges == [] then []
    else
      var Edge(a, b, w) := edges[|edges| - 1];
      Halves(edges[..|edges| - 1], ranks) + if a == b then [] else [HalfOf(a, End(b, w), ranks), HalfOf(b, End(a, w), ranks)]
  }

  function HalfOf(src: nat, tgt: End, ranks: nat): (h: Half)
    requires ranks > 0
  {
    Half(src % ranks, src / ranks, tgt)
  }

  /** The targets of one local vertex, in order of delivery. */
  function Row(hs: seq<Half>, vloc: nat): (ts: seq<End>)
    ensures |ts| <= |hs|
  {
    if hs == [] then [] else Row(hs[..|hs| - 1], vloc) + if hs[|hs| - 1].vloc == vloc then [hs[|hs| - 1].tgt] else []
  }

  ghost predicate Fits(hs: seq<Half>, n: nat) {
    forall i :: 0 <= i < |hs| ==> hs[i].vloc < n
  }

  // ----- The counting pass -----

  /** halfedgehndl for every delivered half. */
  method CountDegrees(degrees: array<nat>, first: seq<Half>)
    requires Fits(first, degrees.Length)
    requires forall i :: 0 <= i < degrees.Length ==> degrees[i] == 0
    modifies degrees
    ensures forall i :: 0 <= i < degrees.Length ==> degrees[i] == |Row(first, i)|
  {
    for k := 0 to |first|
      invariant forall i :: 0 <= i < degrees.Length ==> degrees[i] == |Row(first[..k], i)|
    {
      assert first[..k + 1][..k] == first[..k];
      degrees[first[k].vloc] := degrees[first[k].vloc] + 1;
    }
    assert first[..|first|] == first;
  }

  // ----- Row starts -----

  ghost predicate Starts(rowstarts: seq<nat>, hs: seq<Half>, n: nat) {
    && |rowstarts| == n + 1 && rowstarts[0] == 0
    && forall i :: 0 <= i < n ==> rowstarts[i + 1] == rowstarts[i] + |Row(hs, i)|
  }

  /** The prefix sums; each degree becomes its row's write cursor. */
  method MakeStarts(degrees: array<nat>, ghost hs: seq<Half>) returns (rowstarts: seq<nat>)
    requires forall i :: 0 <= i < degrees.Length ==> degrees[i] == |Row(hs, i)|
    modifies degrees
    ensures Starts(rowstarts, hs, degrees.Length)
    ensures forall i :: 0 <= i < degrees.Length ==> degrees[i] == rowstarts[i]
  {
    hide Row;
    rowstarts := [0];
    for i := 0 to degrees.Length
      invariant |rowstarts| == i + 1 && rowstarts[0] == 0
      invariant forall j :: 0 <= j < i ==> rowstarts[j + 1] == rowstarts[j] + |Row(hs, j)| && degrees[j] == rowstarts[j]
      invariant forall j :: i <= j < degrees.Length ==> degrees[j] == |Row(hs, j)|
    {
      rowstarts := rowstarts + [rowstarts[i] + degrees[i]];
      degrees[i] := rowstarts[i];
    }
  }

  lemma {:induction false} StartsGrow(rowstarts: seq<nat>, hs: seq<Half>, n: nat, i: nat, j: nat)
    requires Starts(rowstarts, hs, n) && i <= j <= n
    ensures rowstarts[i] <= rowstarts[j]
  {
    if i < j {
      StartsGrow(rowstarts, hs, n, i, j - 1);
    }
  }

  // ----- The placing pass -----

  ghost predicate PlacedAt(column: seq<End>, start: nat, ts: seq<End>) {
    start + |ts| <= |column| && column[start..start + |ts|] == ts
  }

  lemma {:induction false} RowPrefix(hs: seq<Half>, k: nat, vloc: nat)
    requires k <= |hs|
    ensures |Row(hs[..k], vloc)| <= |Row(hs, vloc)|
    ensures k < |hs| && hs[k].vloc == vloc ==> |Row(hs[..k], vloc)| < |Row(hs, vloc)|
  {
    if k == |hs| {
      assert hs[..k] == hs;
    } else {
      var front := hs[..|hs| - 1];
      assert front[..k] == hs[..k];
      RowPrefix(front, k, vloc);
    }
  }

  lemma RowNext(hs: seq<Half>, k: nat, vloc: nat)
    requires k < |hs|
    ensures Row(hs[..k + 1], vloc) == Row(hs[..k], vloc) + if hs[k].vloc == vloc then [hs[k].tgt] else []
  {
    assert hs[..k + 1][..k] == hs[..k];
  }

  /** Both passes deliver as many halves to every row. */
  ghost predicate SameLengths(first: seq<Half>, second: seq<Half>) {
    forall i: nat :: |Row(first, i)| == |Row(second, i)|
  }

  /** The cursor of a row stays within it, and writing there leaves the other rows alone. */
  lemma PlaceStep(column: seq<End>, rowstarts: seq<nat>, n: nat, first: seq<Half>, second: seq<Half>, k: nat, i: nat)
    requires Starts(rowstarts, first, n) && SameLengths(first, second) && |column| == rowstarts[n] && Fits(second, n)
    requires k < |second| && i < n && PlacedAt(column, rowstarts[i], Row(second[..k], i))
    ensures var v := second[k].vloc; var pos := rowstarts[v] + |Row(second[..k], v)|;
      pos < |column| && PlacedAt(column[pos := second[k].tgt], rowstarts[i], Row(second[..k + 1], i))
  {
    hide Row;
    var v := second[k].vloc;
    var pos := rowstarts[v] + |Row(second[..k], v)|;
    RowPrefix(second, k, v);
    RowPrefix(second, k, i);
    RowNext(second, k, i);
    StartsGrow(rowstarts, first, n, v + 1, n);
    assert |Row(first, v)| == |Row(second, v)| && |Row(first, i)| == |Row(second, i)|;
    var row := Row(second[..k], i);
    if i < v {
      StartsGrow(rowstarts, first, n, i + 1, v);
      assert rowstarts[i + 1] == rowstarts[i] + |Row(first, i)|;
    } else if i > v {
      StartsGrow(rowstarts, first, n, v + 1, i);
      assert rowstarts[v + 1] == rowstarts[v] + |Row(first, v)|;
    }
    var column' := column[pos := second[k].tgt];
    assert i != v ==> row + [] == row;
    Rewritten(column, rowstarts[i], row, pos, second[k].tgt, i == v);
  }

  lemma Rewritten(column: seq<End>, start: nat, row: seq<End>, pos: nat, t: End, here: bool)
    requires PlacedAt(column, start, row) && pos < |column|
    requires if here then pos == start + |row| else pos < start || pos >= start + |row|
    ensures PlacedAt(column[pos := t], start, row + if here then [t] else [])
  {
    var column' := column[pos := t];
    assert column'[start..start + |row|] == column[start..start + |row|];
    if here {
      assert column'[start..start + |row| + 1] == column'[start..start + |row|] + [t];
    } else {
      assert row + [] == row;
    }
  }

  /** Two arrays side by side. */
  ghost function Zip(column: seq<nat>, weights: seq<int>): (es: seq<End>)
    requires |column| == |weights|
    ensures |es| == |column| && forall i :: 0 <= i < |es| ==> es[i] == End(column[i], weights[i])
  {
    seq(|column|, i requires 0 <= i < |column| => End(column[i], weights[i]))
  }

  /** fulledgehndl for every delivered half: the target and the weight go to the same place. */
  method PlaceEdges(degrees: array<nat>, column: array<nat>, weights: array<int>, rowstarts: seq<nat>,
      second: seq<Half>, ghost first: seq<Half>)
    requires degrees != column && column.Length == weights.Length
    requires Starts(rowstarts, first, degrees.Length) && SameLengths(first, second)
    requires column.Length == rowstarts[degrees.Length] && Fits(second, degrees.Length)
    requires forall i :: 0 <= i < degrees.Length ==> degrees[i] == rowstarts[i]
    modifies degrees, column, weights
    ensures forall i :: 0 <= i < degrees.Length ==>
      degrees[i] == rowstarts[i + 1] && PlacedAt(Zip(column[..], weights[..]), rowstarts[i], Row(second, i))
  {
    hide Row, PlacedAt;
    NothingPlaced(Zip(column[..], weights[..]), rowstarts, first, degrees.Length);
    for k := 0 to |second|
      invariant forall i :: 0 <= i < degrees.Length ==> degrees[i] == rowstarts[i] + |Row(second[..k], i)|
      invariant forall i :: 0 <= i < degrees.Length ==> PlacedAt(Zip(column[..], weights[..]), rowstarts[i], Row(second[..k], i))
    {
      var v := second[k].vloc;
      ghost var before := Zip(column[..], weights[..]);
      var pos := degrees[v];
      forall i | 0 <= i < degrees.Length
        ensures pos < |before| && PlacedAt(before[pos := second[k].tgt], rowstarts[i], Row(second[..k + 1], i))
        ensures |Row(second[..k + 1], i)| == |Row(second[..k], i)| + if i == v then 1 else 0
      {
        PlaceStep(before, rowstarts, degrees.Length, first, second, k, i);
        RowNext(second, k, i);
      }
      column[pos] := second[k].tgt.v;
      weights[pos] := second[k].tgt.w;
      degrees[v] := degrees[v] + 1;
      assert Zip(column[..], weights[..]) == before[pos := second[k].tgt];
    }
    assert second[..|second|] == second;
  }

  lemma NothingPlaced(column: seq<End>, rowstarts: seq<nat>, first: seq<Half>, n: nat)
    requires Starts(rowstarts, first, n) && |column| == rowstarts[n]
    ensures forall i, hs: seq<Half> :: 0 <= i < n ==> PlacedAt(column, rowstarts[i], Row(hs[..0], i))
  {
    forall i | 0 <= i < n ensures rowstarts[i] <= |column| {
      StartsGrow(rowstarts, first, n, i, n);
    }
  }

  // ----- Any order of delivery -----

  ghost predicate AllTo(hs: seq<Half>, r: nat) {
    forall i :: 0 <= i < |hs| ==> hs[i].rank == r
  }

  /** The halves that go to one rank. */
  function To(hs: seq<Half>, r: nat): (mine: seq<Half>)
    ensures forall i :: 0 <= i < |mine| ==> mine[i].rank == r
  {
    if hs == [] then [] else To(hs[..|hs| - 1], r) + if hs[|hs| - 1].rank == r then [hs[|hs| - 1]] else []
  }

  lemma {:induction false} ToCount(hs: seq<Half>, r: nat, h: Half)
    requires h.rank == r
    ensures multiset(To(hs, r))[h] == multiset(hs)[h]
  {
    if hs != [] {
      var front, x := hs[..|hs| - 1], hs[|hs| - 1];
      ToCount(front, r, h);
      assert hs == front + [x];
    }
  }

  lemma {:induction false} RowCount(hs: seq<Half>, r: nat, v: nat, t: End)
    requires AllTo(hs, r)
    ensures multiset(Row(hs, v))[t] == multiset(hs)[Half(r, v, t)]
  {
    if hs != [] {
      var front, x := hs[..|hs| - 1], hs[|hs| - 1];
      RowCount(front, r, v, t);
      assert hs == front + [x];
    }
  }

  lemma AllToMultiset(a: seq<Half>, b: seq<Half>, r: nat)
    requires AllTo(a, r) && multiset(a) == multiset(b)
    ensures AllTo(b, r)
  {
    forall i | 0 <= i < |b| ensures b[i].rank == r {
      assert b[i] in multiset(b);
      assert b[i] in a;
    }
  }

  /** Rows depend only on what is delivered, not on its order. */
  lemma RowsAgree(a: seq<Half>, b: seq<Half>, r: nat, v: nat)
    requires AllTo(a, r) && multiset(a) == multiset(b)
    ensures multiset(Row(a, v)) == multiset(Row(b, v)) && |Row(a, v)| == |Row(b, v)|
  {
    AllToMultiset(a, b, r);
    forall t: End ensures multiset(Row(a, v))[t] == multiset(Row(b, v))[t] {
      RowCount(a, r, v, t);
      RowCount(b, r, v, t);
    }
    assert multiset(Row(a, v)) == multiset(Row(b, v));
    assert |multiset(Row(a, v))| == |Row(a, v)| && |multiset(Row(b, v))| == |Row(b, v)|;
  }

  /** The other ends of a vertex's edges with their weights, loops left out, each as often as the edge occurs. */
  function OtherEnds(edges: seq<Edge>, v: nat): (ends: multiset<End>) {
    if edges == [] then multiset{}
    else
      var Edge(a, b, w) := edges[|edges| - 1];
      OtherEnds(edges[..|edges| - 1], v)
      + (if a != b && a == v then multiset{End(b, w)} else multiset{}) + (if a != b &&
        b == v then multiset{End(a, w)} else multiset{})
  }

  lemma HalfOfIs(a: nat, b: End, v: nat, t: End, ranks: nat)
    requires ranks > 0
    ensures HalfOf(a, b, ranks) == HalfOf(v, t, ranks) <==> a == v && b == t
  {
  }

  lemma {:induction false} HalfCount(edges: seq<Edge>, ranks: nat, v: nat, t: End)
    requires ranks > 0
    ensures multiset(Halves(edges, ranks))[HalfOf(v, t, ranks)] == OtherEnds(edges, v)[t]
  {
    hide HalfOf;
    if edges != [] {
      var front, e := edges[..|edges| - 1], edges[|edges| - 1];
      HalfCount(front, ranks, v, t);
      HalfOfIs(e.v0, End(e.v1, e.w), v, t, ranks);
      HalfOfIs(e.v1, End(e.v0, e.w), v, t, ranks);
      if e.v0 != e.v1 {
        TwoMore(Halves(front, ranks), HalfOf(e.v0, End(e.v1, e.w), ranks), HalfOf(e.v1, End(e.v0, e.w), ranks),
          HalfOf(v, t, ranks));
      } else {
        assert Halves(front, ranks) + [] == Halves(front, ranks);
      }
    }
  }

  lemma TwoMore(hs: seq<Half>, x: Half, y: Half, h: Half)
    ensures multiset(hs + [x, y])[h] == multiset(hs)[h] + (if x == h then 1 else 0) + (if y == h then 1 else 0)
  {
    assert multiset(hs + [x, y]) == multiset(hs) + multiset{x, y};
  }

  /** An edge is seen from both ends. */
  lemma {:induction false} EndsSymmetric(edges: seq<Edge>, v: nat, t: nat, w: int)
    ensures OtherEnds(edges, v)[End(t, w)] == OtherEnds(edges, t)[End(v, w)]
  {
    if edges != [] {
      EndsSymmetric(edges[..|edges| - 1], v, t, w);
    }
  }

  function NonLoops(edges: seq<Edge>): (n: nat) {
    if edges == [] then 0 else NonLoops(edges[..|edges| - 1]) + if edges[|edges| - 1].v0 == edges[|edges| - 1].v1 then 0 else 1
  }

  /** What the first n ranks receive together. */
  function Received(hs: seq<Half>, n: nat): (total: nat) {
    if n == 0 then 0 else Received(hs, n - 1) + |To(hs, n - 1)|
  }

  lemma {:induction false} ReceivedStep(hs: seq<Half>, n: nat)
    requires hs != []
    ensures Received(hs, n) == Received(hs[..|hs| - 1], n) + if hs[|hs| - 1].rank < n then 1 else 0
  {
    if n > 0 {
      ReceivedStep(hs, n - 1);
    }
  }

  lemma {:induction false} ReceivedAll(hs: seq<Half>, n: nat)
    requires forall i :: 0 <= i < |hs| ==> hs[i].rank < n
    ensures Received(hs, n) == |hs|
  {
    if hs == [] {
      NothingReceived(n);
    } else {
      ReceivedAll(hs[..|hs| - 1], n);
      ReceivedStep(hs, n);
    }
  }

  lemma {:induction false} NothingReceived(n: nat)
    ensures Received([], n) == 0
  {
    if n > 0 {
      NothingReceived(n - 1);
    }
  }

  /** The rows of all ranks hold two entries for every edge that is not a loop. */
  lemma {:induction false} TotalHalves(edges: seq<Edge>, ranks: nat)
    requires ranks > 0
    ensures |Halves(edges, ranks)| == 2 * NonLoops(edges) && forall i :: 0 <= i < |Halves(edges, ranks)| ==>
        Halves(edges, ranks)[i].rank < ranks
    ensures Received(Halves(edges, ranks), ranks) == 2 * NonLoops(edges)
  {
    if edges != [] {
      TotalHalves(edges[..|edges| - 1], ranks);
    }
    ReceivedAll(Halves(edges, ranks), ranks);
  }

  /** convert_graph_to_oned_csr on one rank, whatever the order in which each pass is delivered. */
  method Convert(edges: seq<Edge>, ranks: nat, r: nat, n: nat, first: seq<Half>, second: seq<Half>)
    returns (rowstarts: seq<nat>, column: array<nat>, weights: array<int>, cursors: array<nat>)
    requires ranks > 0 && r < ranks
    requires multiset(first) == multiset(second) == multiset(To(Halves(edges, ranks), r))
    requires Fits(first, n) && Fits(second, n)
    ensures |rowstarts| == n + 1 && rowstarts[0] == 0 &&
        rowstarts[n] == column.Length == weights.Length == |To(Halves(edges, ranks), r)|
    ensures cursors.Length == n && forall i :: 0 <= i < n ==> cursors[i] == rowstarts[i + 1]
    ensures forall v: nat :: v % ranks == r && v / ranks < n ==>
        RowHolds(Zip(column[..], weights[..]), rowstarts, edges, v, v / ranks)
  {
    hide Row, PlacedAt, To, Halves, OtherEnds;
    var degrees := new nat[n](i => 0);
    CountDegrees(degrees, first);
    rowstarts := MakeStarts(degrees, first);
    column, weights := new nat[rowstarts[n]], new int[rowstarts[n]];
    forall i: nat ensures |Row(first, i)| == |Row(second, i)| {
      AllToMultiset(To(Halves(edges, ranks), r), first, r);
      RowsAgree(first, second, r, i);
    }
    PlaceEdges(degrees, column, weights, rowstarts, second, first);
    cursors := degrees;
    StartsTotal(rowstarts, first, n);
    assert |multiset(first)| == |first| == |To(Halves(edges, ranks), r)|;
    forall v: nat | v % ranks == r && v / ranks < n ensures RowHolds(Zip(column[..], weights[..]), rowstarts, edges, v,
        v / ranks) {
      RowIsEnds(Zip(column[..], weights[..]), rowstarts, edges, ranks, r, n, first, second, v);
    }
  }

  ghost predicate RowHolds(column: seq<End>, rowstarts: seq<nat>, edges: seq<Edge>, v: nat, vloc: nat) {
    && vloc + 1 < |rowstarts| && rowstarts[vloc] <= rowstarts[vloc + 1] <= |column|
    && multiset(column[rowstarts[vloc]..rowstarts[vloc + 1]]) == OtherEnds(edges, v)
  }

  lemma RowIsEnds(column: seq<End>, rowstarts: seq<nat>, edges: seq<Edge>, ranks: nat, r: nat, n: nat,
      first: seq<Half>, second: seq<Half>, v: nat)
    requires ranks > 0 && v % ranks == r && v / ranks < n && Starts(rowstarts, first, n)
    requires multiset(first) == multiset(second) == multiset(To(Halves(edges, ranks), r))
    requires PlacedAt(column, rowstarts[v / ranks], Row(second, v / ranks))
    ensures RowHolds(column, rowstarts, edges, v, v / ranks)
  {
    hide Row, To, Halves, OtherEnds;
    var vloc := v / ranks;
    AllToMultiset(To(Halves(edges, ranks), r), first, r);
    RowsAgree(first, second, r, vloc);
    RowIsOtherEnds(edges, ranks, r, second, v);
    assert rowstarts[vloc + 1] == rowstarts[vloc] + |Row(first, vloc)|;
  }

  /** What a rank is sent for one of its vertices are the other ends of that vertex. */
  lemma RowIsOtherEnds(edges: seq<Edge>, ranks: nat, r: nat, hs: seq<Half>, v: nat)
    requires ranks > 0 && v % ranks == r && multiset(hs) == multiset(To(Halves(edges, ranks), r))
    ensures multiset(Row(hs, v / ranks)) == OtherEnds(edges, v)
  {
    hide Row, To, Halves, OtherEnds;
    var vloc, sent := v / ranks, To(Halves(edges, ranks), r);
    AllToMultiset(sent, hs, r);
    RowsAgree(sent, hs, r, vloc);
    forall t: End ensures multiset(Row(hs, vloc))[t] == OtherEnds(edges, v)[t] {
      RowCount(sent, r, vloc, t);
      ToCount(Halves(edges, ranks), r, Half(r, vloc, t));
      HalfCount(edges, ranks, v, t);
    }
  }

  /** Every half lands in some row. */
  lemma StartsTotal(rowstarts: seq<nat>, hs: seq<Half>, n: nat)
    requires Starts(rowstarts, hs, n) && Fits(hs, n)
    ensures rowstarts[n] == |hs|
  {
    RowsTotal(hs, n);
    SumsAre(rowstarts, hs, n, n);
  }

  function RowSum(hs: seq<Half>, n: nat): (total: nat) {
    if n == 0 then 0 else RowSum(hs, n - 1) + |Row(hs, n - 1)|
  }

  lemma {:induction false} SumsAre(rowstarts: seq<nat>, hs: seq<Half>, n: nat, m: nat)
    requires Starts(rowstarts, hs, n) && m <= n
    ensures rowstarts[m] == RowSum(hs, m)
  {
    if m > 0 {
      SumsAre(rowstarts, hs, n, m - 1);
    }
  }

  lemma {:induction false} RowSumStep(hs: seq<Half>, n: nat)
    requires hs != []
    ensures RowSum(hs, n) == RowSum(hs[..|hs| - 1], n) + if hs[|hs| - 1].vloc < n then 1 else 0
  {
    if n > 0 {
      RowSumStep(hs, n - 1);
    }
  }

  lemma {:induction false} RowsTotal(hs: seq<Half>, n: nat)
    requires Fits(hs, n)
    ensures RowSum(hs, n) == |hs|
  {
    if hs == [] {
      NoRows(n);
    } else {
      RowsTotal(hs[..|hs| - 1], n);
      RowSumStep(hs, n);
    }
  }

  lemma {:induction false} NoRows(n: nat)
    ensures RowSum([], n) == 0
  {
    if n > 0 {
      NoRows(n - 1);
    }
  }
}
