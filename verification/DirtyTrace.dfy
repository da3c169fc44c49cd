/**
  The input shared by the dirty-page policies: a trace of which pages each
  iteration writes, the dirty set every policy maintains, and the cost that
  policies are compared by, the number of pages they flush.
*/
module DirtyTrace {

  /** Row t-1 of a trace says which pages iteration t writes. */
  type Trace = seq<seq<bool>>

  ghost predicate Rectangular(a: Trace, m: nat) {
    forall t :: 0 <= t < |a| ==> |a[t]| == m
  }

  /** Iteration t (counted from 1) writes page p. */
  predicate Writes(a: Trace, t: nat, p: nat)
    requires 1 <= t <= |a|
  {
    p < |a[t - 1]| && a[t - 1][p]
  }

  function Written(a: Trace, t: nat): (w: set<nat>)
    requires 1 <= t <= |a|
    ensures forall p: nat :: p in w <==> Writes(a, t, p)
  {
    set p: nat | p < |a[t - 1]| && Writes(a, t, p)
  }

  /**
    The target is a C++ int compared with a size_t: a negative target becomes
    a number no dirty set reaches.
  */
  function Limit(target: int): (l: nat)
    requires -0x8000_0000 <= target < 0x8000_0000
  {
    if target < 0 then target + 0x1_0000_0000_0000_0000 else target
  }

  /**
    A schedule lists the dirty set left after iterations 1, 2, ..., n. It may
    flush whatever it likes, as long as it cuts to the limit every iteration.
  */
  ghost predicate IsSchedule(a: Trace, limit: nat, s: seq<set<nat>>) {
    && |s| <= |a|
    && forall t :: 1 <= t <= |s| ==> s[t - 1] <= Before(a, s, t) && |s[t - 1]| <= limit
  }

  /** The dirty set of iteration t after its writes and before its flushes. */
  function Before(a: Trace, s: seq<set<nat>>, t: nat): (d: set<nat>)
    requires 1 <= t <= |s| <= |a|
  {
    (if t == 1 then {} else s[t - 2]) + Written(a, t)
  }

  /** Pages flushed in iterations 1 to t. */
  function Flushed(a: Trace, s: seq<set<nat>>, t: nat): (c: int)
    requires t <= |s| <= |a|
  {
    if t == 0 then 0 else Flushed(a, s, t - 1) + |Before(a, s, t)| - |s[t - 1]|
  }

  /** Pages that turned from clean to dirty in iterations 1 to t. */
  ghost function Dirtied(a: Trace, s: seq<set<nat>>, t: nat): (c: nat)
    requires t <= |s| <= |a|
  {
    if t == 0 then 0
    else Dirtied(a, s, t - 1) + |Written(a, t) - (if t == 1 then {} else s[t - 2])|
  }

  /** The dirty set after iteration t, with the empty set before the first. */
  ghost function After(s: seq<set<nat>>, t: nat): (d: set<nat>)
    requires t <= |s|
  {
    if t == 0 then {} else s[t - 1]
  }

  lemma UnionSize(x: set<nat>, y: set<nat>)
    ensures |x + y| == |x| + |y - x|
  {
    assert x + y == x + (y - x);
  }

  lemma SubsetSize(x: set<nat>, y: set<nat>)
    requires x <= y
    ensures |x| <= |y|
  {
    assert y == x + (y - x);
  }

  /** Conservation: every page that became dirty was flushed or is still dirty. */
  lemma {:induction false} DirtiedIsFlushedOrKept(a: Trace, s: seq<set<nat>>, t: nat)
    requires t <= |s| <= |a|
    ensures Dirtied(a, s, t) == Flushed(a, s, t) + |After(s, t)|
  {
    if t > 0 {
      DirtiedIsFlushedOrKept(a, s, t - 1);
      UnionSize(After(s, t - 1), Written(a, t));
    }
  }
}
