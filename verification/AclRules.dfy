/**
  What a list of command rules means: each rule sets some command bits, clears the
  first-argument lists of some commands and may add one first argument. Rules that a
  later rule covers can be dropped.
*/
module AclRules {

  /** The commands a selector may run, and the first arguments it may run others with. */
  datatype Perm = Perm(bits: set<nat>, first: set<(nat, string)>)

  /** A rule's effect: the bits it sets or clears, the lists it empties, what it adds to them. */
  datatype Effect = Effect(allow: bool, bits: set<nat>, resets: set<nat>, adds: set<(nat, string)>)

  function Without(first: set<(nat, string)>, resets: set<nat>): (rest: set<(nat, string)>)
    ensures forall f :: f in rest <==> f in first && f.0 !in resets
  {
    set f | f in first && f.0 !in resets
  }

  function Apply(p: Perm, e: Effect): (p': Perm) {
    Perm(if e.allow then p.bits + e.bits else p.bits - e.bits, Without(p.first, e.resets) + e.adds)
  }

  function Replay(p: Perm, es: seq<Effect>): (p': Perm) {
    if es == [] then p else Apply(Replay(p, es[..|es| - 1]), es[|es| - 1])
  }

  /** Everything that x touches is decided by a later y. */
  ghost predicate Covers(y: Effect, x: Effect) {
    && x.bits <= y.bits && x.resets <= y.resets
    && forall f :: f in x.adds ==> f in y.adds || f.0 in y.resets
  }

  /** Two permissions that y makes equal. */
  ghost predicate SameBefore(y: Effect, p: Perm, q: Perm) {
    && (forall b :: b !in y.bits ==> (b in p.bits <==> b in q.bits))
    && (forall f :: f !in y.adds && f.0 !in y.resets ==> (f in p.first <==> f in q.first))
  }

  lemma SameAfter(y: Effect, p: Perm, q: Perm)
    requires SameBefore(y, p, q)
    ensures Apply(p, y) == Apply(q, y)
  {
    assert forall b :: b in Apply(p, y).bits <==> b in Apply(q, y).bits;
    assert forall f :: f in Apply(p, y).first <==> f in Apply(q, y).first;
  }

  lemma SameStep(y: Effect, p: Perm, q: Perm, z: Effect)
    requires SameBefore(y, p, q)
    ensures SameBefore(y, Apply(p, z), Apply(q, z))
  {
  }

  lemma SameCovered(y: Effect, p: Perm, q: Perm, x: Effect)
    requires SameBefore(y, p, q) && Covers(y, x)
    ensures SameBefore(y, Apply(p, x), q)
  {
    assert forall b :: b !in y.bits ==> b !in x.bits;
    assert forall f: (nat, string) :: f.0 !in y.resets ==> f.0 !in x.resets;
  }

  /** Dropping the covered ones among earlier rules does not change what a list with y at its end means. */
  lemma {:induction false} CoveredCanGo(p: Perm, es: seq<Effect>, y: Effect, keep: seq<bool>)
    requires |keep| == |es| && forall i :: 0 <= i < |es| && !keep[i] ==> Covers(y, es[i])
    ensures SameBefore(y, Replay(p, es), Replay(p, Kept(es, keep)))
    ensures Apply(Replay(p, es), y) == Apply(Replay(p, Kept(es, keep)), y)
  {
    if es != [] {
      var k := |es| - 1;
      var rest := Kept(es[..k], keep[..k]);
      CoveredCanGo(p, es[..k], y, keep[..k]);
      if keep[k] {
        assert (rest + [es[k]])[..|rest|] == rest;
        SameStep(y, Replay(p, es[..k]), Replay(p, rest), es[k]);
      } else {
        assert rest + [] == rest;
        SameCovered(y, Replay(p, es[..k]), Replay(p, rest), es[k]);
      }
    }
    SameAfter(y, Replay(p, es), Replay(p, Kept(es, keep)));
  }

  /** The elements that are kept, in order. */
  function Kept<T>(s: seq<T>, keep: seq<bool>): (r: seq<T>)
    requires |keep| == |s|
  {
    if s == [] then []
    else
      var k := |s| - 1;
      Kept(s[..k], keep[..k]) + if keep[k] then [s[k]] else []
  }
}
