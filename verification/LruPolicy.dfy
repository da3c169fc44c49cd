/**
  The LRU policy: flush the pages written longest ago. Its dirty sets form a
  stack, so a larger target never loses a page or pays for more flushes.
*/
module LruPolicy {
  import opened Common
  import opened DirtyTrace
  import MinPolicy

  // ----- Recency -----

  function Drop<T>(s: seq<T>, k: nat): (r: seq<T>)
    requires k < |s|
    ensures |r| == |s| - 1
    ensures forall i :: 0 <= i < |r| ==> r[i] == if i < k then s[i] else s[i + 1]
  {
    s[..k] + s[k + 1..]
  }

  /** The first position of p, or the length when p is absent. */
  function Find(s: seq<nat>, p: nat): (k: nat)
    ensures k <= |s| && (k < |s| ==> s[k] == p)
    ensures forall i :: 0 <= i < k ==> s[i] != p
  {
    if s == [] || s[0] == p then 0 else 1 + Find(s[1..], p)
  }

  /** The recency stack after writing p: all pages written so far, latest first. */
  ghost function Touch(s: seq<nat>, p: nat): (r: seq<nat>) {
    var k := Find(s, p);
    [p] + if k < |s| then Drop(s, k) else s
  }

  /** Pages are written in index order within an iteration. */
  ghost function TouchRow(a: Trace, t: nat, s: seq<nat>, idx: nat): (r: seq<nat>)
    requires 1 <= t <= |a|
  {
    if idx == 0 then s
    else
      var s' := TouchRow(a, t, s, idx - 1);
      if Writes(a, t, idx - 1) then Touch(s', idx - 1) else s'
  }

  ghost function Recency(a: Trace, t: nat): (r: seq<nat>)
    requires t <= |a|
  {
    if t == 0 then [] else TouchRow(a, t, Recency(a, t - 1), |a[t - 1]|)
  }

  ghost function Elements(s: seq<nat>): (r: set<nat>) {
    set p | p in s
  }

  /** l is the recency stack, cut no shorter than the limit. */
  ghost predicate Top(l: seq<nat>, stack: seq<nat>, limit: nat) {
    && NoDup(stack)
    && l <= stack
    && (|l| == |stack| || |l| >= limit)
  }

  lemma DropKeepsOthers(s: seq<nat>, k: nat)
    requires NoDup(s) && k < |s|
    ensures NoDup(Drop(s, k))
    ensures forall q :: q in Drop(s, k) <==> q in s && q != s[k]
  {
    var r := Drop(s, k);
    forall q | q in s && q != s[k] ensures q in r {
      var i :| 0 <= i < |s| && s[i] == q;
      assert r[if k < i then i - 1 else i] == q;
    }
  }

  lemma TouchKeepsElements(s: seq<nat>, p: nat)
    requires NoDup(s)
    ensures NoDup(Touch(s, p))
    ensures forall q :: q in Touch(s, p) <==> q in s || q == p
    ensures Elements(Touch(s, p)) == Elements(s) + {p}
  {
    var k := Find(s, p);
    if k < |s| {
      DropKeepsOthers(s, k);
    }
  }

  /** Touching moves the pages before p back by one and leaves the rest where it is. */
  lemma TouchAt(s: seq<nat>, p: nat, j: nat)
    ensures |Touch(s, p)| == (if Find(s, p) < |s| then |s| else |s| + 1) && Touch(s, p)[0] == p
    ensures 0 < j < |Touch(s, p)| ==> var i := if j <= Find(s, p) then j - 1 else j; i < |s| && Touch(s, p)[j] == s[i]
  {
    var k := Find(s, p);
    if k < |s| && 0 < j < |s| {
      assert Touch(s, p)[j] == Drop(s, k)[j - 1];
    }
  }

  lemma FindInFront(l: seq<nat>, stack: seq<nat>, p: nat)
    requires l <= stack
    ensures if Find(l, p) < |l| then Find(stack, p) == Find(l, p) else Find(stack, p) >= |l|
  {
    var i, j := Find(l, p), Find(stack, p);
    if i < |l| {
      assert stack[i] == l[i];
    }
    assert j < |l| ==> l[j] == stack[j];
  }

  lemma TopAfterTouch(l: seq<nat>, stack: seq<nat>, limit: nat, p: nat)
    requires Top(l, stack, limit)
    ensures Top(Touch(l, p), Touch(stack, p), limit)
  {
    hide NoDup, Touch;
    TouchKeepsElements(stack, p);
    FindInFront(l, stack, p);
    var l', stack' := Touch(l, p), Touch(stack, p);
    TouchAt(l, p, 0);
    TouchAt(stack, p, 0);
    forall k | 0 <= k < |l'| ensures l'[k] == stack'[k] {
      TouchAt(l, p, k);
      TouchAt(stack, p, k);
    }
    assert l' == stack'[..|l'|];
  }

  // ----- Recency is the order of the last writes -----

  /** The last iteration up to t that writes page p, or 0. */
  ghost function LastWrite(a: Trace, t: nat, p: nat): (l: nat)
    requires t <= |a|
    ensures l <= t && (l > 0 ==> Writes(a, l, p)) && forall u :: l < u <= t ==> !Writes(a, u, p)
  {
    if t == 0 || Writes(a, t, p) then t else LastWrite(a, t - 1, p)
  }

  /** The same in the middle of iteration t, when the pages before idx have been written. */
  ghost function LastByThen(a: Trace, t: nat, idx: nat, p: nat): (l: nat)
    requires 1 <= t <= |a|
  {
    if p < idx && Writes(a, t, p) then t else LastWrite(a, t - 1, p)
  }

  /** Page p comes before q: it was written later, or in the same iteration and is higher, as pages are written in order. */
  ghost predicate Ahead(a: Trace, t: nat, idx: nat, p: nat, q: nat)
    requires 1 <= t <= |a|
  {
    var l, k := LastByThen(a, t, idx, p), LastByThen(a, t, idx, q);
    l > k || (l == k && p > q)
  }

  ghost predicate OrderedByThen(a: Trace, t: nat, idx: nat, s: seq<nat>)
    requires 1 <= t <= |a|
  {
    && NoDup(s) && (forall p :: p in s <==> LastByThen(a, t, idx, p) > 0)
    && forall i, j :: 0 <= i < j < |s| ==> Ahead(a, t, idx, s[i], s[j])
  }

  /** The order of the last writes: later iterations first, and of one iteration the higher pages first. */
  ghost predicate Ordered(a: Trace, t: nat, s: seq<nat>)
    requires t <= |a|
  {
    && NoDup(s) && (forall p :: p in s <==> LastWrite(a, t, p) > 0)
    && forall i, j :: 0 <= i < j < |s| ==>
      LastWrite(a, t, s[i]) > LastWrite(a, t, s[j]) || (LastWrite(a, t, s[i]) == LastWrite(a, t, s[j]) && s[i] > s[j])
  }

  lemma OthersSame(a: Trace, t: nat, idx: nat, p: nat)
    requires 1 <= t <= |a| && (p != idx || !Writes(a, t, idx))
    ensures LastByThen(a, t, idx + 1, p) == LastByThen(a, t, idx, p)
  {
  }

  /** The page being written comes before all others. */
  lemma WrittenFirst(a: Trace, t: nat, idx: nat, q: nat)
    requires 1 <= t <= |a| && Writes(a, t, idx) && q != idx
    ensures Ahead(a, t, idx + 1, idx, q) && LastByThen(a, t, idx + 1, idx) == t
  {
  }

  /** Touching keeps the order of the others. */
  lemma TouchOrder(s: seq<nat>, p: nat, i: nat, j: nat) returns (i': nat, j': nat)
    requires 0 < i < j < |Touch(s, p)|
    ensures i' < j' < |s| && s[i'] == Touch(s, p)[i] && s[j'] == Touch(s, p)[j]
  {
    hide Touch;
    var k := Find(s, p);
    TouchAt(s, p, i);
    TouchAt(s, p, j);
    i', j' := if i <= k then i - 1 else i, if j <= k then j - 1 else j;
  }

  lemma TouchOrdered(a: Trace, t: nat, idx: nat, s: seq<nat>)
    requires 1 <= t <= |a| && OrderedByThen(a, t, idx, s) && Writes(a, t, idx)
    ensures OrderedByThen(a, t, idx + 1, Touch(s, idx))
  {
    hide LastByThen, Ahead, Touch;
    TouchKeepsElements(s, idx);
    var r := Touch(s, idx);
    assert r[0] == idx by { TouchFirst(s, idx); }
    forall p: nat ensures p in r <==> LastByThen(a, t, idx + 1, p) > 0 {
      if p == idx {
        WrittenFirst(a, t, idx, idx + 1);
      } else {
        OthersSame(a, t, idx, p);
      }
    }
    forall i, j | 0 <= i < j < |r| ensures Ahead(a, t, idx + 1, r[i], r[j]) {
      assert r[j] != r[0];
      if i == 0 {
        WrittenFirst(a, t, idx, r[j]);
      } else {
        var i', j' := TouchOrder(s, idx, i, j);
        assert Ahead(a, t, idx, s[i'], s[j']) && r[i] != r[0];
        AheadSame(a, t, idx, r[i], r[j]);
      }
    }
  }

  lemma TouchFirst(s: seq<nat>, p: nat)
    ensures |Touch(s, p)| > 0 && Touch(s, p)[0] == p
  {
  }

  lemma AheadSame(a: Trace, t: nat, idx: nat, p: nat, q: nat)
    requires 1 <= t <= |a| && ((p != idx && q != idx) || !Writes(a, t, idx))
    ensures Ahead(a, t, idx + 1, p, q) == Ahead(a, t, idx, p, q)
  {
    hide LastByThen;
    OthersSame(a, t, idx, p);
    OthersSame(a, t, idx, q);
  }

  lemma {:induction false} RowOrdered(a: Trace, t: nat, s: seq<nat>, idx: nat)
    requires 1 <= t <= |a| && Ordered(a, t - 1, s)
    ensures OrderedByThen(a, t, idx, TouchRow(a, t, s, idx))
  {
    hide LastWrite, Touch, NoDup;
    if idx > 0 {
      RowOrdered(a, t, s, idx - 1);
      var r := TouchRow(a, t, s, idx - 1);
      if Writes(a, t, idx - 1) {
        TouchOrdered(a, t, idx - 1, r);
      } else {
        forall p: nat ensures LastByThen(a, t, idx, p) == LastByThen(a, t, idx - 1, p) {
          OthersSame(a, t, idx - 1, p);
        }
      }
    }
  }

  lemma NothingTwice()
    ensures NoDup<nat>([])
  {
  }

  /** The recency stack holds exactly the pages written so far, in the order of their last writes, the latest first. */
  lemma {:induction false} RecencyIsLastWrites(a: Trace, t: nat)
    requires t <= |a|
    ensures Ordered(a, t, Recency(a, t))
  {
    hide TouchRow, NoDup;
    if t == 0 {
      assert NoDup<nat>([]) by { NothingTwice(); }
    } else {
      RecencyIsLastWrites(a, t - 1);
      RowOrdered(a, t, Recency(a, t - 1), |a[t - 1]|);
      assert forall p: nat :: LastByThen(a, t, |a[t - 1]|, p) == LastWrite(a, t, p);
    }
  }

  /** What LRU leaves dirty after iteration t. */
  ghost function MostRecent(a: Trace, limit: nat, t: nat): (r: seq<nat>)
    requires t <= |a|
  {
    var stack := Recency(a, t);
    if |stack| <= limit then stack else stack[..limit]
  }

  ghost predicate IsLruSchedule(a: Trace, limit: nat, s: seq<set<nat>>) {
    && |s| <= |a|
    && forall t :: 1 <= t <= |s| ==> s[t - 1] == Elements(MostRecent(a, limit, t))
  }

  /** The dirty sets that LRU leaves after all iterations. */
  ghost function LruSets(a: Trace, limit: nat): (s: seq<set<nat>>)
    ensures |s| == |a|
  {
    seq(|a|, i requires 0 <= i < |a| => Elements(MostRecent(a, limit, i + 1)))
  }

  lemma LruSetsUnique(a: Trace, limit: nat, s: seq<set<nat>>)
    requires IsLruSchedule(a, limit, s) && |s| == |a|
    ensures s == LruSets(a, limit)
  {
    hide Elements, MostRecent;
    var l := LruSets(a, limit);
    forall i | 0 <= i < |a| ensures s[i] == l[i] {
      var t := i + 1;
      assert s[t - 1] == Elements(MostRecent(a, limit, t));
    }
  }

  // ----- The program -----

  /**
    lru_list and page_map. The list is held as the page of each node and, beside
    it, the node's identity: an iterator in page_map is such an identity.
  */
  ghost predicate Linked(pages: seq<nat>, nodes: seq<nat>, pageMap: map<nat, nat>, next: nat) {
    && |pages| == |nodes| && NoDup(pages) && NoDup(nodes)
    && (forall i :: 0 <= i < |pages| ==> pages[i] in pageMap && pageMap[pages[i]] == nodes[i])
    && (forall i :: 0 <= i < |nodes| ==> nodes[i] < next)
  }

  /** lru_list, page_map and dirty_set hold the same pages. */
  ghost predicate Consistent(pages: seq<nat>, nodes: seq<nat>, pageMap: map<nat, nat>, dirty: set<nat>, next: nat) {
    Linked(pages, nodes, pageMap, next) && pageMap.Keys == dirty == Elements(pages)
  }

  lemma LinkedFacts(pages: seq<nat>, nodes: seq<nat>, pageMap: map<nat, nat>, next: nat)
    requires Linked(pages, nodes, pageMap, next)
    ensures NoDup(pages) && |pages| == |nodes|
  {
  }

  lemma Unlink(pages: seq<nat>, nodes: seq<nat>, pageMap: map<nat, nat>, next: nat, p: nat)
    requires Linked(pages, nodes, pageMap, next) && p in pages
    ensures var k := Find(pages, p);
            && p in pageMap && k < |pages| && Find(nodes, pageMap[p]) == k
            && Linked(Drop(pages, k), Drop(nodes, k), pageMap, next) && p !in Drop(pages, k)
  {
    var k := Find(pages, p);
    DropKeepsOthers(pages, k);
    DropKeepsOthers(nodes, k);
  }

  lemma Push(pages: seq<nat>, nodes: seq<nat>, pageMap: map<nat, nat>, next: nat, p: nat)
    requires Linked(pages, nodes, pageMap, next) && p !in pages
    ensures Linked([p] + pages, [next] + nodes, pageMap[p := next], next + 1)
  {
  }

  lemma Pop(pages: seq<nat>, nodes: seq<nat>, pageMap: map<nat, nat>, next: nat)
    requires Linked(pages, nodes, pageMap, next) && pages != []
    ensures var n := |pages| - 1;
            && Linked(pages[..n], nodes[..n], pageMap - {pages[n]}, next)
            && |nodes| == |pages| && pages[n] in Elements(pages)
            && Elements(pages[..n]) == Elements(pages) - {pages[n]}
  {
    var n := |pages| - 1;
    assert pages == pages[..n] + [pages[n]];
  }

  lemma InElements(s: seq<nat>, p: nat)
    ensures p in Elements(s) <==> Find(s, p) < |s|
  {
  }

  lemma Rewritten(pages: seq<nat>, nodes: seq<nat>, pageMap: map<nat, nat>, dirty: set<nat>, next: nat, p: nat)
    requires Consistent(pages, nodes, pageMap, dirty, next)
    ensures var k := Find(pages, p);
            && |nodes| == |pages| && (p in pageMap <==> k < |pages|)
            && (p in pageMap ==> Find(nodes, pageMap[p]) == k)
            && var nodes' := if k < |pages| then Drop(nodes, k) else nodes;
               Consistent(Touch(pages, p), [next] + nodes', pageMap[p := next], dirty + {p}, next + 1)
  {
    hide Linked, NoDup, Elements;
    LinkedFacts(pages, nodes, pageMap, next);
    TouchKeepsElements(pages, p);
    var k := Find(pages, p);
    assert p in Elements(pages) <==> k < |pages| by { InElements(pages, p); }
    if k < |pages| {
      Unlink(pages, nodes, pageMap, next, p);
      Push(Drop(pages, k), Drop(nodes, k), pageMap, next, p);
    } else {
      Push(pages, nodes, pageMap, next, p);
    }
  }

  /** One write: unlink the page's node if it has one, and push it to the front. */
  method WritePage(pages0: seq<nat>, nodes0: seq<nat>, pageMap0: map<nat, nat>, dirty0: set<nat>, next0: nat, p: nat)
    returns (pages: seq<nat>, nodes: seq<nat>, pageMap: map<nat, nat>, dirty: set<nat>, next: nat)
    requires Consistent(pages0, nodes0, pageMap0, dirty0, next0)
    ensures Consistent(pages, nodes, pageMap, dirty, next)
    ensures pages == Touch(pages0, p)
    ensures dirty == dirty0 + {p}
  {
    hide Consistent;
    Rewritten(pages0, nodes0, pageMap0, dirty0, next0, p);
    pages, nodes, pageMap, next := pages0, nodes0, pageMap0, next0;
    dirty := dirty0 + {p};
    if p in pageMap {
      var k := Find(nodes, pageMap[p]);
      pages, nodes := Drop(pages, k), Drop(nodes, k);
    }
    pages, nodes := [p] + pages, [next] + nodes;
    pageMap := pageMap[p := next];
    next := next + 1;
  }

  lemma {:induction false} SizeOfElements(s: seq<nat>)
    requires NoDup(s)
    ensures |Elements(s)| == |s|
  {
    if s != [] {
      SizeOfElements(s[1..]);
      assert Elements(s) == {s[0]} + Elements(s[1..]);
    }
  }

  /** The eviction loop: pop the oldest node until the target is met. */
  method EvictOldest(pages0: seq<nat>, nodes0: seq<nat>, pageMap0: map<nat, nat>, dirty0: set<nat>, ghost next: nat, limit: nat)
    returns (pages: seq<nat>, nodes: seq<nat>, pageMap: map<nat, nat>, dirty: set<nat>, count: nat)
    requires Consistent(pages0, nodes0, pageMap0, dirty0, next)
    ensures Consistent(pages, nodes, pageMap, dirty, next)
    ensures pages == if |pages0| <= limit then pages0 else pages0[..limit]
    ensures dirty <= dirty0 && count == |dirty0| - |dirty| && |dirty| == if |dirty0| <= limit then |dirty0| else limit
  {
    hide Linked, NoDup, Elements;
    LinkedFacts(pages0, nodes0, pageMap0, next);
    SizeOfElements(pages0);
    pages, nodes, pageMap, dirty, count := pages0, nodes0, pageMap0, dirty0, 0;
    while |dirty| > limit
      invariant Consistent(pages, nodes, pageMap, dirty, next)
      invariant dirty <= dirty0 && |dirty| == |pages| && pages <= pages0
      invariant |pages| >= if |pages0| <= limit then |pages0| else limit
      invariant count == |dirty0| - |dirty|
      decreases |dirty|
    {
      Pop(pages, nodes, pageMap, next);
      var n := |pages| - 1;
      var lruPage := pages[n];
      assert lruPage in dirty;
      pages, nodes := pages[..n], nodes[..n];
      pageMap := pageMap - {lruPage};
      dirty := dirty - {lruPage};
      count := count + 1;
    }
  }

  /** The writes of iteration t, applied in page order. */
  method WriteRow(a: Trace, m: nat, t: nat, limit: nat,
                  pages0: seq<nat>, nodes0: seq<nat>, pageMap0: map<nat, nat>, dirty0: set<nat>, next0: nat)
    returns (pages: seq<nat>, nodes: seq<nat>, pageMap: map<nat, nat>, dirty: set<nat>, next: nat)
    requires Rectangular(a, m) && 1 <= t <= |a|
    requires Consistent(pages0, nodes0, pageMap0, dirty0, next0)
    requires Top(pages0, Recency(a, t - 1), limit)
    ensures Consistent(pages, nodes, pageMap, dirty, next)
    ensures Top(pages, Recency(a, t), limit)
    ensures dirty == dirty0 + Written(a, t)
  {
    hide Consistent, Top, Touch;
    pages, nodes, pageMap, dirty, next := pages0, nodes0, pageMap0, dirty0, next0;
    ghost var stack := Recency(a, t - 1);
    for idx := 0 to m
      invariant Consistent(pages, nodes, pageMap, dirty, next)
      invariant Top(pages, TouchRow(a, t, stack, idx), limit)
      invariant forall p: nat :: p in dirty <==> p in dirty0 || (p < idx && Writes(a, t, p))
    {
      if a[t - 1][idx] {
        TopAfterTouch(pages, TouchRow(a, t, stack, idx), limit, idx);
        pages, nodes, pageMap, dirty, next := WritePage(pages, nodes, pageMap, dirty, next, idx);
      }
    }
  }

  lemma CutIsMostRecent(a: Trace, t: nat, limit: nat, pages: seq<nat>)
    requires t <= |a| && Top(pages, Recency(a, t), limit)
    ensures (if |pages| <= limit then pages else pages[..limit]) == MostRecent(a, limit, t)
    ensures Top(MostRecent(a, limit, t), Recency(a, t), limit)
  {
  }

  /** One iteration: its writes, its evictions and its log line. */
  method Iterate(a: Trace, m: nat, t: nat, limit: nat,
                 pages0: seq<nat>, nodes0: seq<nat>, pageMap0: map<nat, nat>, dirty0: set<nat>, next0: nat)
    returns (pages: seq<nat>, nodes: seq<nat>, pageMap: map<nat, nat>, dirty: set<nat>, next: nat, row: MinPolicy.LogRow)
    requires Rectangular(a, m) && 1 <= t <= |a|
    requires Consistent(pages0, nodes0, pageMap0, dirty0, next0)
    requires Top(pages0, Recency(a, t - 1), limit)
    ensures Consistent(pages, nodes, pageMap, dirty, next)
    ensures Top(pages, Recency(a, t), limit)
    ensures dirty == Elements(MostRecent(a, limit, t))
    ensures var d0 := dirty0 + Written(a, t); row == MinPolicy.LogRow(|dirty|, |d0| - |dirty|, |d0|)
    ensures row.dirty == if row.prevDirty <= limit then row.prevDirty else limit
  {
    hide Linked, Top, Elements, MostRecent, Recency, Rectangular;
    pages, nodes, pageMap, dirty, next := WriteRow(a, m, t, limit, pages0, nodes0, pageMap0, dirty0, next0);
    var prevDirty, count := |dirty|, 0;
    CutIsMostRecent(a, t, limit, pages);
    pages, nodes, pageMap, dirty, count := EvictOldest(pages, nodes, pageMap, dirty, next, limit);
    row := MinPolicy.LogRow(|dirty|, count, prevDirty);
  }

  /** lru_policy: the printed log is that of the most recently written pages. */
  method RunLru(a: Trace, m: nat, target: int) returns (log: seq<MinPolicy.LogRow>)
    requires Rectangular(a, m)
    requires -0x8000_0000 <= target < 0x8000_0000
    ensures |log| == |a| && MinPolicy.LogMatches(a, log, LruSets(a, Limit(target)))
    ensures forall i :: 0 <= i < |log| ==> MinPolicy.Met(target, log[i])
  {
    hide LruSets, Consistent, Top, Elements, MostRecent, Recency, IsLruSchedule, Rectangular, Written, MinPolicy.LogMatches;
    var limit := Limit(target);
    var pages, nodes, pageMap, dirty, next := [], [], map[], {}, 0;
    log := [];
    ghost var s := [];
    StartIsConsistent(a, limit);
    for t := 0 to |a|
      invariant Consistent(pages, nodes, pageMap, dirty, next)
      invariant Top(pages, Recency(a, t), limit)
      invariant |log| == |s| == t && dirty == After(s, t)
      invariant IsLruSchedule(a, limit, s)
      invariant MinPolicy.LogMatches(a, log, s)
      invariant forall i :: 0 <= i < |log| ==> MinPolicy.Met(target, log[i])
    {
      var row;
      pages, nodes, pageMap, dirty, next, row := Iterate(a, m, t + 1, limit, pages, nodes, pageMap, dirty, next);
      ExtendRun(a, limit, log, s, dirty, row);
      log, s := log + [row], s + [dirty];
    }
    LruSetsUnique(a, limit, s);
  }

  lemma StartIsConsistent(a: Trace, limit: nat)
    ensures Consistent([], [], map[], {}, 0)
    ensures Top([], Recency(a, 0), limit)
    ensures IsLruSchedule(a, limit, []) && MinPolicy.LogMatches(a, [], [])
  {
  }

  lemma ExtendRun(a: Trace, limit: nat, log: seq<MinPolicy.LogRow>, s: seq<set<nat>>, d: set<nat>, row: MinPolicy.LogRow)
    requires MinPolicy.LogMatches(a, log, s) && IsLruSchedule(a, limit, s) && |s| < |a|
    requires d == Elements(MostRecent(a, limit, |s| + 1))
    requires var d0 := After(s, |s|) + Written(a, |s| + 1);
             row == MinPolicy.LogRow(|d|, |d0| - |d|, |d0|)
    ensures IsLruSchedule(a, limit, s + [d])
    ensures MinPolicy.LogMatches(a, log + [row], s + [d])
  {
    hide Elements, MostRecent;
    var s' := s + [d];
    forall t | 1 <= t <= |s| ensures Before(a, s', t) == Before(a, s, t) {}
  }

  // ----- The stack property -----

  lemma {:induction false} RowKeepsNoDup(a: Trace, t: nat, s: seq<nat>, idx: nat)
    requires 1 <= t <= |a| && NoDup(s)
    ensures NoDup(TouchRow(a, t, s, idx))
    ensures forall p: nat :: p in TouchRow(a, t, s, idx) <==> p in s || (p < idx && Writes(a, t, p))
  {
    hide NoDup, Touch, Elements;
    if idx > 0 {
      RowKeepsNoDup(a, t, s, idx - 1);
      TouchKeepsElements(TouchRow(a, t, s, idx - 1), idx - 1);
    }
  }

  lemma {:induction false} RecencyIsNoDup(a: Trace, t: nat)
    requires t <= |a|
    ensures NoDup(Recency(a, t))
  {
    hide NoDup, TouchRow;
    if t == 0 {
      NothingTwice();
    } else {
      RecencyIsNoDup(a, t - 1);
      RowKeepsNoDup(a, t, Recency(a, t - 1), |a[t - 1]|);
    }
  }

  /** Inclusion: a larger target keeps every page a smaller one keeps. */
  lemma LargerTargetIncludesSmaller(a: Trace, small: nat, large: nat, s: seq<set<nat>>, l: seq<set<nat>>, t: nat)
    requires small <= large
    requires IsLruSchedule(a, small, s) && IsLruSchedule(a, large, l)
    requires t <= |s| && t <= |l|
    ensures After(s, t) <= After(l, t)
  {
    if t > 0 {
      var x, y := MostRecent(a, small, t), MostRecent(a, large, t);
      assert x <= y;
      assert Elements(x) <= Elements(y);
    }
  }

  /** Hence a larger target never flushes more in total. */
  lemma LargerTargetFlushesLess(a: Trace, small: nat, large: nat, s: seq<set<nat>>, l: seq<set<nat>>, t: nat)
    requires small <= large
    requires IsLruSchedule(a, small, s) && IsLruSchedule(a, large, l)
    requires t <= |s| && t <= |l|
    ensures Flushed(a, l, t) <= Flushed(a, s, t)
  {
    LargerTargetDirtiesLess(a, small, large, s, l, t);
    LargerTargetIncludesSmaller(a, small, large, s, l, t);
    SubsetSize(After(s, t), After(l, t));
    DirtiedIsFlushedOrKept(a, s, t);
    DirtiedIsFlushedOrKept(a, l, t);
  }

  lemma {:induction false} LargerTargetDirtiesLess(a: Trace, small: nat, large: nat,
                                                   s: seq<set<nat>>, l: seq<set<nat>>, t: nat)
    requires small <= large
    requires IsLruSchedule(a, small, s) && IsLruSchedule(a, large, l)
    requires t <= |s| && t <= |l|
    ensures Dirtied(a, l, t) <= Dirtied(a, s, t)
  {
    if t > 0 {
      LargerTargetDirtiesLess(a, small, large, s, l, t - 1);
      LargerTargetIncludesSmaller(a, small, large, s, l, t - 1);
      SubsetSize(Written(a, t) - After(l, t - 1), Written(a, t) - After(s, t - 1));
    }
  }

  lemma {:induction false} RowKeepsTop(a: Trace, t: nat, limit: nat, l: seq<nat>, stack: seq<nat>, idx: nat)
    requires 1 <= t <= |a| && Top(l, stack, limit)
    ensures Top(TouchRow(a, t, l, idx), TouchRow(a, t, stack, idx), limit)
  {
    hide Top, Touch, Writes;
    if idx > 0 {
      RowKeepsTop(a, t, limit, l, stack, idx - 1);
      if Writes(a, t, idx - 1) {
        TopAfterTouch(TouchRow(a, t, l, idx - 1), TouchRow(a, t, stack, idx - 1), limit, idx - 1);
      }
    }
  }

  /** LRU only ever keeps pages that were dirty, and no more than the limit. */
  lemma LruIsSchedule(a: Trace, limit: nat, s: seq<set<nat>>)
    requires IsLruSchedule(a, limit, s)
    ensures IsSchedule(a, limit, s)
  {
    hide Elements, MostRecent;
    forall t | 1 <= t <= |s|
      ensures s[t - 1] <= Before(a, s, t) && |s[t - 1]| <= limit
    {
      var u := t - 1;
      MostRecentNext(a, limit, t);
      assert After(s, u) == Elements(MostRecent(a, limit, u)) by {
        assert u > 0 ==> s[u - 1] == Elements(MostRecent(a, limit, u));
        NothingRecent(a, limit);
      }
    }
  }

  lemma NothingRecent(a: Trace, limit: nat)
    ensures Elements(MostRecent(a, limit, 0)) == {}
  {
  }

  /** What is kept after an iteration was kept before it or is written in it. */
  lemma MostRecentNext(a: Trace, limit: nat, t: nat)
    requires 1 <= t <= |a|
    ensures Elements(MostRecent(a, limit, t)) <= Elements(MostRecent(a, limit, t - 1)) + Written(a, t)
    ensures |Elements(MostRecent(a, limit, t))| <= limit
  {
    hide NoDup, TouchRow;
    var l, m, stack := MostRecent(a, limit, t - 1), |a[t - 1]|, Recency(a, t - 1);
    RecencyIsNoDup(a, t - 1);
    RecencyIsNoDup(a, t);
    FrontNoDup(stack, |l|);
    FrontNoDup(Recency(a, t), |MostRecent(a, limit, t)|);
    RowKeepsTop(a, t, limit, l, stack, m);
    RowKeepsNoDup(a, t, l, m);
    assert MostRecent(a, limit, t) <= TouchRow(a, t, l, m);
    SizeOfElements(MostRecent(a, limit, t));
  }

  lemma FrontNoDup(s: seq<nat>, n: nat)
    requires NoDup(s) && n <= |s|
    ensures NoDup(s[..n]) && s[..|s|] == s
  {
  }

  /** So MIN never flushes more than LRU. */
  lemma MinBeatsLru(a: Trace, limit: nat, s: seq<set<nat>>, l: seq<set<nat>>, t: nat)
    requires |a| < MinPolicy.MAX_ITER
    requires MinPolicy.IsMinSchedule(a, limit, s) && IsLruSchedule(a, limit, l)
    requires t <= |s| && t <= |l|
    ensures Flushed(a, s, t) <= Flushed(a, l, t)
  {
    LruIsSchedule(a, limit, l);
    MinPolicy.MinIsOptimal(a, limit, s, l, t);
  }
}
