/**
  The MIN policy: when too many pages are dirty, flush those whose next write
  is farthest away. The policy is proved optimal against every schedule.
*/
module MinPolicy {
  import opened DirtyTrace

  /** Stands for "never written again"; traces are far shorter. */
  const NEVER := 1000000
  const MAX_ITER := 1000

  /** The iterations after t that write page p, in order. */
  ghost function UsesAfter(a: Trace, p: nat, t: nat): (u: seq<nat>)
    requires t <= |a|
    decreases |a| - t
  {
    if t == |a| then []
    else if Writes(a, t + 1, p) then [t + 1] + UsesAfter(a, p, t + 1)
    else UsesAfter(a, p, t + 1)
  }

  /** When page p is written next after iteration t. */
  ghost function NextUse(a: Trace, p: nat, t: nat): (u: nat)
    requires t <= |a|
  {
    var u := UsesAfter(a, p, t);
    if u == [] then NEVER else u[0]
  }

  lemma {:induction false} UsesAreLater(a: Trace, p: nat, t: nat)
    requires t <= |a|
    ensures forall i :: 0 <= i < |UsesAfter(a, p, t)| ==> t < UsesAfter(a, p, t)[i] <= |a|
    decreases |a| - t
  {
    if t < |a| {
      UsesAreLater(a, p, t + 1);
    }
  }

  /** A page written in iteration t + 1 is exactly one whose next use is t + 1. */
  lemma NextUseAfter(a: Trace, p: nat, t: nat)
    requires t < |a| < MAX_ITER
    ensures NextUse(a, p, t) > t
    ensures p in Written(a, t + 1) <==> NextUse(a, p, t) == t + 1
    ensures p !in Written(a, t + 1) ==> NextUse(a, p, t + 1) == NextUse(a, p, t)
  {
    UsesAreLater(a, p, t);
    UsesAreLater(a, p, t + 1);
  }

  /** The key the code sorts by, smallest first: farthest next use, then lowest page. */
  datatype Key = Key(negUse: int, page: nat)

  ghost function KeyOf(a: Trace, t: nat, p: nat): (k: Key)
    requires t <= |a|
  {
    Key(-(NextUse(a, p, t) as int), p)
  }

  predicate Less(x: Key, y: Key) {
    x.negUse < y.negUse || (x.negUse == y.negUse && x.page < y.page)
  }

  /** d1 is what MIN leaves of d0 after iteration t. */
  ghost predicate IsMinCut(a: Trace, t: nat, limit: nat, d0: set<nat>, d1: set<nat>)
    requires t <= |a|
  {
    && d1 <= d0
    && |d1| == (if |d0| <= limit then |d0| else limit)
    && forall e, r :: e in d0 - d1 && r in d1 ==> Less(KeyOf(a, t, e), KeyOf(a, t, r))
  }

  ghost predicate IsMinSchedule(a: Trace, limit: nat, s: seq<set<nat>>) {
    && |s| <= |a|
    && forall t :: 1 <= t <= |s| ==> IsMinCut(a, t, limit, Before(a, s, t), s[t - 1])
  }

  /** The pages of d whose next use is at most x. */
  ghost function Soon(a: Trace, t: nat, d: set<nat>, x: int): (r: set<nat>)
    requires t <= |a|
  {
    set p | p in d && NextUse(a, p, t) <= x
  }

  /**
    The exchange argument in closed form: wherever the rival holds more pages
    with an early next use, it has already paid for them by dirtying more.
  */
  ghost predicate Ahead(a: Trace, t: nat, mine: set<nat>, rival: set<nat>, lead: int)
    requires t <= |a|
  {
    forall x: int :: x >= t ==> |Soon(a, t, rival, x)| - |Soon(a, t, mine, x)| <= lead
  }

  lemma SoonAfterWrite(a: Trace, t: nat, d: set<nat>, x: int)
    requires t < |a| < MAX_ITER && x >= t + 1
    ensures |Soon(a, t + 1, d + Written(a, t + 1), x)|
         == |Soon(a, t, d, x)| - |Soon(a, t, d, t + 1)| + |Soon(a, t + 1, Written(a, t + 1), x)|
    ensures Soon(a, t, d, t + 1) == d * Written(a, t + 1)
  {
    var w := Written(a, t + 1);
    forall p | p in d
      ensures NextUse(a, p, t) > t
      ensures p in w <==> NextUse(a, p, t) == t + 1
      ensures p !in w ==> NextUse(a, p, t + 1) == NextUse(a, p, t)
    {
      NextUseAfter(a, p, t);
    }
    var kept := Soon(a, t, d, x) - Soon(a, t, d, t + 1);
    assert Soon(a, t, d, t + 1) == d * w;
    assert Soon(a, t, d, t + 1) <= Soon(a, t, d, x);
    assert Soon(a, t + 1, d + w, x) == kept + Soon(a, t + 1, w, x);
    assert kept !! Soon(a, t + 1, w, x);
  }

  /** Writing the same pages moves both sides and the lead by the same amount. */
  lemma AheadAfterWrite(a: Trace, t: nat, mine: set<nat>, rival: set<nat>, lead: int)
    requires t < |a| < MAX_ITER
    requires Ahead(a, t, mine, rival, lead)
    ensures var w := Written(a, t + 1);
            Ahead(a, t + 1, mine + w, rival + w, lead + |w - rival| - |w - mine|)
  {
    var t', w := t + 1, Written(a, t + 1);
    var mine', rival' := mine + w, rival + w;
    forall x: int | x >= t'
      ensures |Soon(a, t', rival', x)| - |Soon(a, t', mine', x)| <= lead + |w - rival| - |w - mine|
    {
      SoonAfterWrite(a, t, mine, x);
      SoonAfterWrite(a, t, rival, x);
      assert |w - mine| == |w| - |mine * w| by { assert w == (w - mine) + mine * w; }
      assert |w - rival| == |w| - |rival * w| by { assert w == (w - rival) + rival * w; }
    }
  }

  lemma NothingIsSoon(a: Trace, t: nat, d: set<nat>)
    requires t <= |a| < MAX_ITER
    ensures Soon(a, t, d, t) == {}
  {
    forall p | p in d ensures NextUse(a, p, t) > t {
      UsesAreLater(a, p, t);
    }
  }

  /** MIN's cut keeps the lead, whatever the rival cuts. */
  lemma AheadAfterCut(a: Trace, t: nat, limit: nat, mine: set<nat>, mine': set<nat>,
                      rival: set<nat>, rival': set<nat>, lead: int)
    requires t <= |a| < MAX_ITER
    requires Ahead(a, t, mine, rival, lead)
    requires IsMinCut(a, t, limit, mine, mine')
    requires rival' <= rival && |rival'| <= limit
    ensures Ahead(a, t, mine', rival', lead)
  {
    assert 0 <= lead by {
      NothingIsSoon(a, t, mine);
      NothingIsSoon(a, t, rival);
      assert |Soon(a, t, rival, t)| - |Soon(a, t, mine, t)| <= lead;
    }
    forall x: int | x >= t
      ensures |Soon(a, t, rival', x)| - |Soon(a, t, mine', x)| <= lead
    {
      SubsetSize(Soon(a, t, rival', x), Soon(a, t, rival, x));
      if e :| e in mine - mine' && NextUse(a, e, t) <= x {
        forall r | r in mine' ensures NextUse(a, r, t) <= x {
          assert Less(KeyOf(a, t, e), KeyOf(a, t, r));
        }
        assert Soon(a, t, mine', x) == mine';
        SubsetSize(mine', mine);
        assert mine == mine' + (mine - mine');
        assert |mine'| == limit;
        SubsetSize(Soon(a, t, rival', x), rival');
      } else {
        assert Soon(a, t, mine', x) == Soon(a, t, mine, x);
      }
    }
  }

  /** One whole iteration, writes then cut. */
  lemma AheadAfterIteration(a: Trace, t: nat, limit: nat, mine: set<nat>, mine': set<nat>,
                            rival: set<nat>, rival': set<nat>, lead: int)
    requires 1 <= t <= |a| < MAX_ITER
    requires Ahead(a, t - 1, mine, rival, lead)
    requires IsMinCut(a, t, limit, mine + Written(a, t), mine')
    requires rival' <= rival + Written(a, t) && |rival'| <= limit
    ensures Ahead(a, t, mine', rival', lead + |Written(a, t) - rival| - |Written(a, t) - mine|)
  {
    AheadAfterWrite(a, t - 1, mine, rival, lead);
    var w := Written(a, t);
    AheadAfterCut(a, t, limit, mine + w, mine', rival + w, rival', lead + |w - rival| - |w - mine|);
  }

  lemma AheadAtStart(a: Trace)
    ensures Ahead(a, 0, {}, {}, 0)
  {
    assert forall x: int :: Soon(a, 0, {}, x) == {};
  }

  lemma {:induction false} MinStaysAhead(a: Trace, limit: nat, s: seq<set<nat>>, r: seq<set<nat>>, t: nat)
    requires |a| < MAX_ITER
    requires IsMinSchedule(a, limit, s) && IsSchedule(a, limit, r)
    requires t <= |s| && t <= |r|
    ensures Ahead(a, t, After(s, t), After(r, t), Dirtied(a, r, t) - Dirtied(a, s, t))
  {
    if t == 0 {
      AheadAtStart(a);
    } else {
      MinStaysAhead(a, limit, s, r, t - 1);
      assert Before(a, s, t) == After(s, t - 1) + Written(a, t);
      assert Before(a, r, t) == After(r, t - 1) + Written(a, t);
      AheadAfterIteration(a, t, limit, After(s, t - 1), s[t - 1], After(r, t - 1), r[t - 1],
                          Dirtied(a, r, t - 1) - Dirtied(a, s, t - 1));
    }
  }

  /**
    Optimality: after every iteration MIN has flushed no more pages than any
    schedule that cuts the same trace to the same limit.
  */
  lemma MinIsOptimal(a: Trace, limit: nat, s: seq<set<nat>>, r: seq<set<nat>>, t: nat)
    requires |a| < MAX_ITER
    requires IsMinSchedule(a, limit, s) && IsSchedule(a, limit, r)
    requires t <= |s| && t <= |r|
    ensures Flushed(a, s, t) <= Flushed(a, r, t)
  {
    MinStaysAhead(a, limit, s, r, t);
    DirtiedIsFlushedOrKept(a, s, t);
    DirtiedIsFlushedOrKept(a, r, t);
    var mine, rival := After(s, t), After(r, t);
    forall d: set<nat>, p | p in d ensures NextUse(a, p, t) <= NEVER {
      UsesAreLater(a, p, t);
    }
    assert Soon(a, t, mine, NEVER) == mine;
    assert Soon(a, t, rival, NEVER) == rival;
    assert NEVER as int >= t;
  }

  /** MIN's own choice is a schedule, so it attains the optimum. */
  lemma MinIsSchedule(a: Trace, limit: nat, s: seq<set<nat>>)
    requires IsMinSchedule(a, limit, s)
    ensures IsSchedule(a, limit, s)
  {
    forall t | 1 <= t <= |s|
      ensures s[t - 1] <= Before(a, s, t) && |s[t - 1]| <= limit
    {
      assert IsMinCut(a, t, limit, Before(a, s, t), s[t - 1]);
    }
  }

  // ----- The program -----

  const PAGE_NUM := 32 * 512

  /** The line printed for an iteration. */
  datatype LogRow = LogRow(dirty: nat, evicted: int, prevDirty: nat)

  /** An iteration ends with at most the target, and evicts no more than that takes; a negative target evicts nothing. */
  ghost predicate Met(target: int, row: LogRow) {
    && (target >= 0 ==> row.dirty == if row.prevDirty <= target then row.prevDirty else target)
    && (target < 0 && row.prevDirty < 0x8000_0000_0000_0000 ==> row.dirty == row.prevDirty)
    && row.evicted == row.prevDirty - row.dirty
  }

  function TotalEvicted(log: seq<LogRow>): (c: int) {
    if log == [] then 0 else TotalEvicted(log[..|log| - 1]) + log[|log| - 1].evicted
  }

  type UseLists = map<nat, seq<nat>>

  /** Indexing an unordered_map with a missing key yields an empty list. */
  function Uses(nextUse: UseLists, p: nat): (u: seq<nat>) {
    if p in nextUse then nextUse[p] else []
  }

  function SortKey(nextUse: UseLists, p: nat): (k: Key) {
    var u := Uses(nextUse, p);
    Key(-((if u == [] then NEVER else u[0]) as int), p)
  }

  /** Strictly increasing; no two dirty pages have the same key. */
  ghost predicate Sorted(v: seq<Key>) {
    forall i, j :: 0 <= i < j < |v| ==> Less(v[i], v[j])
  }

  ghost predicate Distinct(v: seq<Key>) {
    forall i, j :: 0 <= i < j < |v| ==> v[i] != v[j]
  }

  function Insert(k: Key, v: seq<Key>): (r: seq<Key>)
    ensures multiset(r) == multiset(v) + multiset{k}
  {
    if v == [] || Less(k, v[0]) then [k] + v
    else
      assert v == [v[0]] + v[1..];
      [v[0]] + Insert(k, v[1..])
  }

  /** std::sort on pairs. */
  function Sort(v: seq<Key>): (r: seq<Key>)
    ensures multiset(r) == multiset(v)
  {
    if v == [] then []
    else
      assert v == [v[0]] + v[1..];
      Insert(v[0], Sort(v[1..]))
  }

  lemma {:induction false} InsertSorts(k: Key, v: seq<Key>)
    requires Sorted(v) && k !in v
    ensures Sorted(Insert(k, v))
  {
    if v != [] && !Less(k, v[0]) {
      var r := Insert(k, v[1..]);
      InsertSorts(k, v[1..]);
      forall x | x in r ensures Less(v[0], x) {
        assert x in multiset(r);
      }
    }
  }

  lemma {:induction false} SortSorts(v: seq<Key>)
    requires Distinct(v)
    ensures Sorted(Sort(v))
    ensures forall k :: k in Sort(v) <==> k in v
    ensures |Sort(v)| == |v|
  {
    forall k ensures k in Sort(v) <==> k in v {
      assert k in multiset(Sort(v)) <==> k in multiset(v);
    }
    assert |multiset(Sort(v))| == |multiset(v)|;
    if v != [] {
      SortSorts(v[1..]);
      InsertSorts(v[0], Sort(v[1..]));
    }
  }

  /** v lists the keys of exactly the pages of d. */
  ghost predicate Lists(nextUse: UseLists, d: set<nat>, v: seq<Key>) {
    && |v| == |d|
    && (forall k :: k in v ==> k.page in d && k == SortKey(nextUse, k.page))
    && (forall p :: p in d ==> SortKey(nextUse, p) in v)
  }

  /** Lists the dirty pages with their keys, in page order. */
  method CollectKeys(nextUse: UseLists, m: nat, dirty: set<nat>) returns (v: seq<Key>)
    requires forall p :: p in dirty ==> p < m
    ensures Lists(nextUse, dirty, v) && Distinct(v)
  {
    v := [];
    ghost var seen: set<nat> := {};
    for page := 0 to m
      invariant seen == set p | p in dirty && p < page
      invariant Lists(nextUse, seen, v) && Distinct(v)
    {
      if page in dirty {
        v := v + [SortKey(nextUse, page)];
        seen := seen + {page};
      }
    }
    assert seen == dirty;
  }

  /** Every flushed page comes before every kept page in the sort order. */
  ghost predicate Separated(nextUse: UseLists, d0: set<nat>, d1: set<nat>) {
    forall e, r :: e in d0 - d1 && r in d1 ==> Less(SortKey(nextUse, e), SortKey(nextUse, r))
  }

  ghost function Pages(v: seq<Key>): (s: set<nat>) {
    set k | k in v :: k.page
  }

  lemma PrefixSeparates(nextUse: UseLists, d: set<nat>, v: seq<Key>, i: nat)
    requires Lists(nextUse, d, v) && Sorted(v) && i <= |v|
    ensures Separated(nextUse, d, d - Pages(v[..i]))
  {
    forall e, r | e in Pages(v[..i]) && r in d - Pages(v[..i])
      ensures Less(SortKey(nextUse, e), SortKey(nextUse, r))
    {
      var ix :| 0 <= ix < i && v[ix].page == e;
      var iy :| 0 <= iy < |v| && v[iy] == SortKey(nextUse, r);
      assert v[ix] in v;
      assert iy < i ==> v[iy] in v[..i];
    }
  }

  /** The next page in sort order is still dirty when its turn comes. */
  lemma NextIsDirty(nextUse: UseLists, d: set<nat>, v: seq<Key>, i: nat)
    requires Lists(nextUse, d, v) && Sorted(v) && i < |v|
    ensures v[i].page in d - Pages(v[..i])
    ensures d - Pages(v[..i + 1]) == (d - Pages(v[..i])) - {v[i].page}
  {
    assert v[i] in v;
    forall k | k in v[..i] ensures k.page != v[i].page {
      assert k in v;
    }
    assert v[..i + 1] == v[..i] + [v[i]];
  }

  /**
    One pass of the eviction loop. Its bound shrinks as pages leave, so a pass
    flushes only about half of the excess; it still takes the right ones.
  */
  method EvictPass(nextUse: UseLists, m: nat, limit: nat, dirty0: set<nat>) returns (dirty: set<nat>, count: nat)
    requires forall p :: p in dirty0 ==> p < m
    requires |dirty0| > limit
    ensures dirty < dirty0 && |dirty| >= limit && count == |dirty0| - |dirty|
    ensures Separated(nextUse, dirty0, dirty)
  {
    var keys := CollectKeys(nextUse, m, dirty0);
    SortSorts(keys);
    var v := Sort(keys);
    assert Lists(nextUse, dirty0, v);
    assert Pages(v[..0]) == {};
    dirty := dirty0;
    var i := 0;
    while i < |dirty| - limit
      invariant 0 <= i <= |v|
      invariant dirty == dirty0 - Pages(v[..i])
      invariant |dirty| == |dirty0| - i >= limit
    {
      var minPage := v[i].page;
      NextIsDirty(nextUse, dirty0, v, i);
      dirty := dirty - {minPage};
      i := i + 1;
    }
    count := i;
    PrefixSeparates(nextUse, dirty0, v, i);
  }

  /** The eviction loop of one iteration, re-sorting until the limit is met. */
  method Evict(nextUse: UseLists, m: nat, limit: nat, dirty0: set<nat>) returns (dirty: set<nat>, count: nat)
    requires forall p :: p in dirty0 ==> p < m
    ensures dirty <= dirty0 && count == |dirty0| - |dirty|
    ensures |dirty| == (if |dirty0| <= limit then |dirty0| else limit)
    ensures Separated(nextUse, dirty0, dirty)
  {
    dirty, count := dirty0, 0;
    while |dirty| > limit
      invariant dirty <= dirty0 && count == |dirty0| - |dirty|
      invariant |dirty| >= (if |dirty0| <= limit then |dirty0| else limit)
      invariant Separated(nextUse, dirty0, dirty)
      decreases dirty
    {
      ghost var before := dirty;
      var n;
      dirty, n := EvictPass(nextUse, m, limit, dirty);
      count := count + n;
      forall e, r | e in dirty0 - dirty && r in dirty
        ensures Less(SortKey(nextUse, e), SortKey(nextUse, r))
      {
        if e !in before {
          assert e in dirty0 - before && r in before;
        }
      }
    }
    SubsetSize(dirty, dirty0);
  }

  /** The use lists hold exactly the writes still to come after iteration t. */
  ghost predicate Tracks(a: Trace, nextUse: UseLists, t: nat)
    requires t <= |a|
  {
    forall p: nat :: Uses(nextUse, p) == UsesAfter(a, p, t)
  }

  /** nextUse1 is nextUse0 with iteration t + 1 added to the pages it writes. */
  ghost predicate Recorded(a: Trace, t: nat, nextUse0: UseLists, nextUse1: UseLists)
    requires t < |a|
  {
    forall p: nat :: Uses(nextUse1, p) == if Writes(a, t + 1, p) then Uses(nextUse0, p) + [t + 1] else Uses(nextUse0, p)
  }

  method RecordWrites(a: Trace, m: nat, t: nat, nextUse0: UseLists) returns (nextUse: UseLists)
    requires Rectangular(a, m) && t < |a|
    ensures Recorded(a, t, nextUse0, nextUse)
  {
    nextUse := nextUse0;
    for idx := 0 to m
      invariant forall p: nat :: Uses(nextUse, p) ==
                  if p < idx && Writes(a, t + 1, p) then Uses(nextUse0, p) + [t + 1] else Uses(nextUse0, p)
    {
      if a[t][idx] {
        nextUse := nextUse[idx := Uses(nextUse, idx) + [t + 1]];
      }
    }
  }

  lemma RecordedExtends(a: Trace, t: nat, nextUse0: UseLists, nextUse1: UseLists, p: nat)
    requires t < |a| && Recorded(a, t, nextUse0, nextUse1)
    ensures Uses(nextUse1, p) + UsesAfter(a, p, t + 1) == Uses(nextUse0, p) + UsesAfter(a, p, t)
  {
    var u0, u := Uses(nextUse0, p), UsesAfter(a, p, t + 1);
    assert u0 + [t + 1] + u == u0 + ([t + 1] + u);
  }

  /** The first loop: record when each page is written. */
  method BuildUses(a: Trace, m: nat) returns (nextUse: UseLists)
    requires Rectangular(a, m)
    ensures Tracks(a, nextUse, 0)
  {
    nextUse := map[];
    for t := 0 to |a|
      invariant forall p: nat :: Uses(nextUse, p) + UsesAfter(a, p, t) == UsesAfter(a, p, 0)
    {
      ghost var before := nextUse;
      nextUse := RecordWrites(a, m, t, nextUse);
      forall p: nat ensures Uses(nextUse, p) + UsesAfter(a, p, t + 1) == UsesAfter(a, p, 0) {
        RecordedExtends(a, t, before, nextUse, p);
      }
    }
  }

  /** The writes of iteration t + 1: mark pages dirty and drop this use. */
  method MarkWrites(a: Trace, m: nat, t: nat, nextUse0: UseLists, dirty0: set<nat>)
    returns (nextUse: UseLists, dirty: set<nat>)
    requires Rectangular(a, m) && t < |a| && Tracks(a, nextUse0, t)
    ensures Tracks(a, nextUse, t + 1)
    ensures dirty == dirty0 + Written(a, t + 1)
  {
    nextUse, dirty := nextUse0, dirty0;
    for idx := 0 to m
      invariant forall p: nat :: p < idx ==> Uses(nextUse, p) == UsesAfter(a, p, t + 1)
      invariant forall p: nat :: p >= idx ==> Uses(nextUse, p) == Uses(nextUse0, p)
      invariant forall p: nat :: p in dirty <==> p in dirty0 || (p < idx && Writes(a, t + 1, p))
    {
      ghost var before := nextUse;
      assert Uses(before, idx) == UsesAfter(a, idx, t);
      if a[t][idx] {
        dirty := dirty + {idx};
        assert Uses(nextUse, idx) == [t + 1] + UsesAfter(a, idx, t + 1);
        nextUse := nextUse[idx := Uses(nextUse, idx)[1..]];
      }
      assert Uses(nextUse, idx) == UsesAfter(a, idx, t + 1);
      assert forall p: nat :: p != idx ==> Uses(nextUse, p) == Uses(before, p);
    }
  }

  /**
    min_policy. The log is what it prints; the ghost result names the dirty
    sets behind the log. Its running total of evictions is least possible.
  */
  method RunMin(a: Trace, m: nat, target: int) returns (log: seq<LogRow>, ghost s: seq<set<nat>>)
    requires Rectangular(a, m) && |a| < MAX_ITER && m <= PAGE_NUM
    requires -0x8000_0000 <= target < 0x8000_0000
    ensures |log| == |s| == |a|
    ensures IsMinSchedule(a, Limit(target), s)
    ensures forall t :: 1 <= t <= |a| ==>
              log[t - 1] == LogRow(|s[t - 1]|, |Before(a, s, t)| - |s[t - 1]|, |Before(a, s, t)|)
    ensures forall r, t :: IsSchedule(a, Limit(target), r) && 0 <= t <= |r| ==>
              TotalEvicted(log[..t]) <= Flushed(a, r, t)
    ensures forall i :: 0 <= i < |log| ==> Met(target, log[i])
  {
    hide IsMinCut, Tracks, Flushed, TotalEvicted, Separated;
    var limit := Limit(target);
    var nextUse := BuildUses(a, m);
    var dirty: set<nat> := {};
    log, s := [], [];
    for t := 0 to |a|
      invariant |log| == |s| == t
      invariant dirty == After(s, t) && forall p :: p in dirty ==> p < m
      invariant Tracks(a, nextUse, t)
      invariant IsMinSchedule(a, limit, s)
      invariant LogMatches(a, log, s)
      invariant forall i :: 0 <= i < |log| ==> Met(target, log[i])
    {
      nextUse, dirty := MarkWrites(a, m, t, nextUse, dirty);
      var prevDirty := |dirty|;
      ghost var full := dirty;
      var count;
      dirty, count := Evict(nextUse, m, limit, dirty);
      CutIsMin(a, nextUse, t + 1, limit, full, dirty);
      ExtendSchedule(a, limit, log, s, dirty, LogRow(|dirty|, count, prevDirty));
      log, s := log + [LogRow(|dirty|, count, prevDirty)], s + [dirty];
    }
    forall r, t | IsSchedule(a, limit, r) && 0 <= t <= |r|
      ensures TotalEvicted(log[..t]) <= Flushed(a, r, t)
    {
      LogTotals(a, log, s, t);
      MinIsOptimal(a, limit, s, r, t);
    }
  }

  ghost predicate LogMatches(a: Trace, log: seq<LogRow>, s: seq<set<nat>>) {
    && |log| == |s| <= |a|
    && forall t :: 1 <= t <= |s| ==>
         log[t - 1] == LogRow(|s[t - 1]|, |Before(a, s, t)| - |s[t - 1]|, |Before(a, s, t)|)
  }

  lemma CutIsMin(a: Trace, nextUse: UseLists, t: nat, limit: nat, d0: set<nat>, d1: set<nat>)
    requires t <= |a| && Tracks(a, nextUse, t)
    requires d1 <= d0 && |d1| == (if |d0| <= limit then |d0| else limit)
    requires Separated(nextUse, d0, d1)
    ensures IsMinCut(a, t, limit, d0, d1)
  {
    assert forall p: nat :: KeyOf(a, t, p) == SortKey(nextUse, p);
  }

  lemma ExtendSchedule(a: Trace, limit: nat, log: seq<LogRow>, s: seq<set<nat>>, d: set<nat>, row: LogRow)
    requires IsMinSchedule(a, limit, s) && LogMatches(a, log, s) && |s| < |a|
    requires var d0 := After(s, |s|) + Written(a, |s| + 1);
             IsMinCut(a, |s| + 1, limit, d0, d) && d <= d0 && row == LogRow(|d|, |d0| - |d|, |d0|)
    ensures IsMinSchedule(a, limit, s + [d]) && LogMatches(a, log + [row], s + [d])
  {
    var s' := s + [d];
    forall t | 1 <= t <= |s'| ensures t <= |s| ==> Before(a, s', t) == Before(a, s, t) {}
    assert Before(a, s', |s'|) == After(s, |s|) + Written(a, |s| + 1);
  }

  lemma {:induction false} LogTotals(a: Trace, log: seq<LogRow>, s: seq<set<nat>>, t: nat)
    requires LogMatches(a, log, s) && t <= |s|
    ensures TotalEvicted(log[..t]) == Flushed(a, s, t)
  {
    if t > 0 {
      LogTotals(a, log, s, t - 1);
      assert log[..t][..t - 1] == log[..t - 1];
      assert log[..t][t - 1] == log[t - 1];
    }
  }
}
