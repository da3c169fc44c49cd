/**
  The splittable multiple recursive generator: a linear recurrence of order
  five, and its jumps of up to 2^192 steps by precomputed matrices kept as five
  numbers. A jump is proved to be that many single steps.
*/
module Mrg {
  import opened ModArith

  /** Five consecutive terms of the recurrence, newest first. */
  datatype Terms = Terms(z1: Fp, z2: Fp, z3: Fp, z4: Fp, z5: Fp)

  /** One step of the recurrence. */
  function Next(z: Terms): (r: Terms)
  {
    Terms(MacY(MulX(z.z1), z.z5), z.z1, z.z2, z.z3, z.z4)
  }

  /** n steps: what every jump is measured against. */
  ghost function Steps(z: Terms, n: nat): (r: Terms)
  {
    if n == 0 then z else Next(Steps(z, n - 1))
  }

  // ----- Congruence modulo P -----

  ghost predicate Same(a: int, b: int) {
    (a - b) % P == 0
  }

  lemma SameWitness(a: int, b: int) returns (k: int)
    requires Same(a, b)
    ensures a == b + P * k
  {
    k := (a - b) / P;
  }

  lemma WitnessSame(a: int, b: int, k: int)
    requires a == b + P * k
    ensures Same(a, b)
  {
    AddMultiple(0, k);
  }

  lemma ReducedSame(a: int)
    ensures Same(a % P, a)
  {
    WitnessSame(a % P, a, -(a / P));
  }

  lemma SameSymmetric(a: int, b: int)
    requires Same(a, b)
    ensures Same(b, a)
  {
    var k := SameWitness(a, b);
    WitnessSame(b, a, -k);
  }

  lemma SameTransitive(a: int, b: int, c: int)
    requires Same(a, b) && Same(b, c)
    ensures Same(a, c)
  {
    var k := SameWitness(a, b);
    var l := SameWitness(b, c);
    WitnessSame(a, c, k + l);
  }

  lemma SameAdd(a: int, b: int, c: int, d: int)
    requires Same(a, b) && Same(c, d)
    ensures Same(a + c, b + d)
  {
    var k := SameWitness(a, b);
    var l := SameWitness(c, d);
    WitnessSame(a + c, b + d, k + l);
  }

  lemma SameTimes(m: int, a: int, b: int)
    requires Same(a, b)
    ensures Same(m * a, m * b)
  {
    var k := SameWitness(a, b);
    assert m * (b + P * k) == m * b + P * (m * k);
    WitnessSame(m * a, m * b, m * k);
  }

  /** Congruent residues are equal. */
  lemma SameEqual(a: Fp, b: Fp)
    requires Same(a, b)
    ensures a == b
  {
    var k := SameWitness(a, b);
    ModUnique(a, b, k);
    ModUnique(a, a, 0);
  }

  // ----- Transition matrices -----

  /**
    The matrix s A^4 + t A^3 + u A^2 + v A + w I, where A is one step, with the
    cached entries a to d of its first column.
  */
  datatype Matrix = Matrix(s: Fp, t: Fp, u: Fp, v: Fp, w: Fp, a: Fp, b: Fp, c: Fp, d: Fp)

  /** The cache holds what mrg_update_cache puts there. */
  ghost predicate Cached(m: Matrix) {
    && Same(m.a, X * m.s + m.t) && Same(m.b, X * m.a + m.u)
    && Same(m.c, X * m.b + m.v) && Same(m.d, X * m.c + m.w)
  }

  /** mrg_apply_transition. */
  function Apply(m: Matrix, z: Terms): (r: Terms)
  {
    Terms(
      MacY(Mul(m.d, z.z1), Mac4(0, m.s, z.z2, m.a, z.z3, m.b, z.z4, m.c, z.z5)),
      MacY(Mac2(0, m.c, z.z1, m.w, z.z2), Mac3(0, m.s, z.z3, m.a, z.z4, m.b, z.z5)),
      MacY(Mac3(0, m.b, z.z1, m.v, z.z2, m.w, z.z3), Mac2(0, m.s, z.z4, m.a, z.z5)),
      MacY(Mac4(0, m.a, z.z1, m.u, z.z2, m.v, z.z3, m.w, z.z4), Mul(m.s, z.z5)),
      Mac2(Mac3(0, m.s, z.z1, m.t, z.z2, m.u, z.z3), m.v, z.z4, m.w, z.z5))
  }

  lemma {:induction false} StepsCompose(z: Terms, m: nat, n: nat)
    ensures Steps(Steps(z, m), n) == Steps(z, m + n)
  {
    hide Next;
    if n > 0 {
      StepsCompose(z, m, n - 1);
    }
  }

  lemma SameReflexive(a: int)
    ensures Same(a, a)
  {
  }

  /** x ~ p ~ q ~ y, for residues x and y. */
  lemma Chain(x: Fp, p: int, q: int, y: Fp)
    requires Same(x, p) && Same(p, q) && Same(y, q)
    ensures x == y
  {
    SameTransitive(x, p, q);
    SameSymmetric(y, q);
    SameTransitive(x, q, y);
    SameEqual(x, y);
  }

  // ----- Vectors of integers, before reduction -----

  datatype Vec = Vec(a: int, b: int, c: int, d: int, e: int)

  ghost function Dot(p: Vec, q: Vec): (r: int) {
    p.a * q.a + p.b * q.b + p.c * q.c + p.d * q.d + p.e * q.e
  }

  ghost function VecOf(z: Terms): (v: Vec) {
    Vec(z.z1, z.z2, z.z3, z.z4, z.z5)
  }

  lemma SameDot(c: Vec, p: Vec, q: Vec)
    requires Same(p.a, q.a) && Same(p.b, q.b) && Same(p.c, q.c) && Same(p.d, q.d) && Same(p.e, q.e)
    ensures Same(Dot(c, p), Dot(c, q))
  {
    hide Same;
    SameTimes(c.a, p.a, q.a); SameTimes(c.b, p.b, q.b); SameTimes(c.c, p.c, q.c);
    SameTimes(c.d, p.d, q.d); SameTimes(c.e, p.e, q.e);
    SameSum(c.a * p.a, c.b * p.b, c.c * p.c, c.d * p.d, c.e * p.e, c.a * q.a, c.b * q.b, c.c * q.c, c.d * q.d, c.e * q.e);
  }

  lemma SameSum(a1: int, a2: int, a3: int, a4: int, a5: int, b1: int, b2: int, b3: int, b4: int, b5: int)
    requires Same(a1, b1) && Same(a2, b2) && Same(a3, b3) && Same(a4, b4) && Same(a5, b5)
    ensures Same(a1 + a2 + a3 + a4 + a5, b1 + b2 + b3 + b4 + b5)
  {
    hide Same;
    SameAdd(a1, b1, a2, b2);
    SameAdd(a1 + a2, b1 + b2, a3, b3);
    SameAdd(a1 + a2 + a3, b1 + b2 + b3, a4, b4);
    SameAdd(a1 + a2 + a3 + a4, b1 + b2 + b3 + b4, a5, b5);
  }

  lemma DotSymmetric(p: Vec, q: Vec)
    ensures Dot(p, q) == Dot(q, p)
  {
  }

  ghost function Triple(x: int, y: int, z: int): (r: int) {
    x * (y * z)
  }

  lemma TimesDotLeft(k: int, p: Vec, q: Vec)
    ensures k * Dot(p, q) == Triple(p.a, q.a, k) + Triple(p.b, q.b, k) + Triple(p.c, q.c, k) + Triple(p.d, q.d,
        k) + Triple(p.e, q.e, k)
  {
    TimesSum(k, p.a * q.a, p.b * q.b, p.c * q.c, p.d * q.d, p.e * q.e);
    Regroup(k, p.a, q.a); Regroup(k, p.b, q.b); Regroup(k, p.c, q.c); Regroup(k, p.d, q.d); Regroup(k, p.e, q.e);
  }

  lemma TimesDotRight(k: int, p: Vec, q: Vec)
    ensures k * Dot(p, q) == Triple(k, p.a, q.a) + Triple(k, p.b, q.b) + Triple(k, p.c, q.c) + Triple(k, p.d,
        q.d) + Triple(k, p.e, q.e)
  {
    TimesSum(k, p.a * q.a, p.b * q.b, p.c * q.c, p.d * q.d, p.e * q.e);
  }

  lemma TimesSum(k: int, x1: int, x2: int, x3: int, x4: int, x5: int)
    ensures k * (x1 + x2 + x3 + x4 + x5) == k * x1 + k * x2 + k * x3 + k * x4 + k * x5
  {
  }

  lemma Regroup(k: int, p: int, q: int)
    ensures k * (p * q) == Triple(p, q, k)
  {
  }

  /** Row times matrix times vector, associated both ways; r1 to r5 are the rows. */
  lemma Associate(m: Vec, r1: Vec, r2: Vec, r3: Vec, r4: Vec, r5: Vec, z: Vec)
    ensures Dot(z, Vec(Dot(m, Vec(r1.a, r2.a, r3.a, r4.a, r5.a)), Dot(m, Vec(r1.b, r2.b, r3.b, r4.b, r5.b)),
                       Dot(m, Vec(r1.c, r2.c, r3.c, r4.c, r5.c)), Dot(m, Vec(r1.d, r2.d, r3.d, r4.d, r5.d)),
                       Dot(m, Vec(r1.e, r2.e, r3.e, r4.e, r5.e))))
         == Dot(m, Vec(Dot(r1, z), Dot(r2, z), Dot(r3, z), Dot(r4, z), Dot(r5, z)))
  {
    hide Triple;
    TimesDotLeft(z.a, m, Vec(r1.a, r2.a, r3.a, r4.a, r5.a));
    TimesDotLeft(z.b, m, Vec(r1.b, r2.b, r3.b, r4.b, r5.b));
    TimesDotLeft(z.c, m, Vec(r1.c, r2.c, r3.c, r4.c, r5.c));
    TimesDotLeft(z.d, m, Vec(r1.d, r2.d, r3.d, r4.d, r5.d));
    TimesDotLeft(z.e, m, Vec(r1.e, r2.e, r3.e, r4.e, r5.e));
    TimesDotRight(m.a, r1, z);
    TimesDotRight(m.b, r2, z);
    TimesDotRight(m.c, r3, z);
    TimesDotRight(m.d, r4, z);
    TimesDotRight(m.e, r5, z);
  }

  // ----- The matrix written out -----

  /** The five rows of the matrix that the compact form stands for, in the order of the source comment. */
  ghost function Row1(m: Matrix): (v: Vec) { Vec(m.d, Y * m.s, Y * m.a, Y * m.b, Y * m.c) }
  ghost function Row2(m: Matrix): (v: Vec) { Vec(m.c, m.w, Y * m.s, Y * m.a, Y * m.b) }
  ghost function Row3(m: Matrix): (v: Vec) { Vec(m.b, m.v, m.w, Y * m.s, Y * m.a) }
  ghost function Row4(m: Matrix): (v: Vec) { Vec(m.a, m.u, m.v, m.w, Y * m.s) }
  ghost function Row5(m: Matrix): (v: Vec) { Vec(m.s, m.t, m.u, m.v, m.w) }

  lemma MacYSame(sum: Fp, a: Fp, sum': int, a': int)
    requires Same(sum, sum') && Same(a, a')
    ensures Same(MacY(sum, a), sum' + Y * a')
  {
    ReducedSame(a * Y + sum);
    SameTimes(Y, a, a');
    SameAdd(sum, sum', Y * a, Y * a');
    SameTransitive(MacY(sum, a), a * Y + sum, sum' + Y * a');
  }

  /** mrg_apply_transition multiplies by the written-out matrix. */
  lemma ApplyIsProduct(m: Matrix, z: Terms)
    ensures var r := Apply(m, z);
      && Same(r.z1, Dot(Row1(m), VecOf(z))) && Same(r.z2, Dot(Row2(m), VecOf(z))) && Same(r.z3, Dot(Row3(m), VecOf(z)))
      && Same(r.z4, Dot(Row4(m), VecOf(z))) && Same(r.z5, Dot(Row5(m), VecOf(z)))
  {
    hide *;
    RowsAsForms(m, z);
    Entry1(m, z);
    Entry2(m, z);
    Entry3(m, z);
    Entry4(m, z);
    Entry5(m, z);
  }

  lemma Entry1(m: Matrix, z: Terms)
    ensures Same(Apply(m, z).z1, m.d * z.z1 + Y * (m.s * z.z2 + m.a * z.z3 + m.b * z.z4 + m.c * z.z5))
  {
    hide Same, Mul, Mac4, MacY;
    var x := m.s * z.z2 + m.a * z.z3 + m.b * z.z4 + m.c * z.z5;
    ReducedSame(m.d * z.z1);
    ReducedSame(x);
    MacYSame(Mul(m.d, z.z1), Mac4(0, m.s, z.z2, m.a, z.z3, m.b, z.z4, m.c, z.z5), m.d * z.z1, x);
  }

  lemma Entry2(m: Matrix, z: Terms)
    ensures Same(Apply(m, z).z2, m.c * z.z1 + m.w * z.z2 + Y * (m.s * z.z3 + m.a * z.z4 + m.b * z.z5))
  {
    hide Same, Mac2, Mac3, MacY;
    var x := m.s * z.z3 + m.a * z.z4 + m.b * z.z5;
    ReducedSame(m.c * z.z1 + m.w * z.z2);
    ReducedSame(x);
    MacYSame(Mac2(0, m.c, z.z1, m.w, z.z2), Mac3(0, m.s, z.z3, m.a, z.z4, m.b, z.z5), m.c * z.z1 + m.w * z.z2, x);
  }

  lemma Entry3(m: Matrix, z: Terms)
    ensures Same(Apply(m, z).z3, m.b * z.z1 + m.v * z.z2 + m.w * z.z3 + Y * (m.s * z.z4 + m.a * z.z5))
  {
    hide Same, Mac2, Mac3, MacY;
    var x := m.s * z.z4 + m.a * z.z5;
    ReducedSame(m.b * z.z1 + m.v * z.z2 + m.w * z.z3);
    ReducedSame(x);
    MacYSame(Mac3(0, m.b, z.z1, m.v, z.z2, m.w, z.z3), Mac2(0, m.s, z.z4, m.a, z.z5), m.b * z.z1 + m.v * z.z2 + m.w * z.z3, x);
  }

  lemma Entry4(m: Matrix, z: Terms)
    ensures Same(Apply(m, z).z4, m.a * z.z1 + m.u * z.z2 + m.v * z.z3 + m.w * z.z4 + Y * (m.s * z.z5))
  {
    hide Same, Mul, Mac4, MacY;
    var x := m.a * z.z1 + m.u * z.z2 + m.v * z.z3 + m.w * z.z4;
    ReducedSame(x);
    ReducedSame(m.s * z.z5);
    MacYSame(Mac4(0, m.a, z.z1, m.u, z.z2, m.v, z.z3, m.w, z.z4), Mul(m.s, z.z5), x, m.s * z.z5);
  }

  lemma RowsAsForms(m: Matrix, z: Terms)
    ensures Dot(Row1(m), VecOf(z)) == m.d * z.z1 + Y * (m.s * z.z2 + m.a * z.z3 + m.b * z.z4 + m.c * z.z5)
    ensures Dot(Row2(m), VecOf(z)) == m.c * z.z1 + m.w * z.z2 + Y * (m.s * z.z3 + m.a * z.z4 + m.b * z.z5)
    ensures Dot(Row3(m), VecOf(z)) == m.b * z.z1 + m.v * z.z2 + m.w * z.z3 + Y * (m.s * z.z4 + m.a * z.z5)
    ensures Dot(Row4(m), VecOf(z)) == m.a * z.z1 + m.u * z.z2 + m.v * z.z3 + m.w * z.z4 + Y * (m.s * z.z5)
  {
  }

  lemma Entry5(m: Matrix, z: Terms)
    ensures Same(Apply(m, z).z5, Dot(Row5(m), VecOf(z)))
  {
    hide Same, Mac2, Mac3;
    var q := m.s * z.z1 + m.t * z.z2 + m.u * z.z3;
    var p := Mac3(0, m.s, z.z1, m.t, z.z2, m.u, z.z3);
    ReducedSame(q);
    var rest := m.v * z.z4 + m.w * z.z5;
    ReducedSame(rest + p);
    SameReflexive(rest);
    SameAdd(rest, rest, p, q);
    SameTransitive(Apply(m, z).z5, rest + p, rest + q);
  }

  // ----- A matrix commutes with a step -----

  lemma NextTerm(z: Terms)
    ensures Same(Next(z).z1, X * z.z1 + Y * z.z5)
  {
    ReducedSame(z.z1 * X);
    SameReflexive(z.z5);
    MacYSame(MulX(z.z1), z.z5, X * z.z1, z.z5);
  }

  /** Each row is the row below it moved one step along: the step behind every cached entry. */
  lemma ShiftRow(p: int, q: int, p': int, e1: int, e0: int, z: int, rest: int)
    requires Same(e1, X * e0 + Y * z) && Same(p', X * p + q)
    ensures Same(p * e1 + q * e0 + rest, p' * e0 + rest + Y * p * z)
  {
    var k := SameWitness(e1, X * e0 + Y * z);
    var l := SameWitness(p', X * p + q);
    ShiftIdentity(p, q, e0, z, k, l);
    WitnessSame(p * e1 + q * e0 + rest, p' * e0 + rest + Y * p * z, p * k - l * e0);
  }

  lemma ShiftIdentity(p: int, q: int, e0: int, z: int, k: int, l: int)
    ensures p * (X * e0 + Y * z + P * k) + q * e0 == (X * p + q + P * l) * e0 + Y * p * z + P * (p * k - l * e0)
  {
  }

  lemma ShiftedRow2(m: Matrix, z: Terms, z': Terms)
    requires Cached(m) && z' == Next(z)
    ensures Same(Dot(Row2(m), VecOf(z')), Dot(Row1(m), VecOf(z)))
  {
    NextTerm(z);
    hide Same, MacY, MulX;
    ShiftRow(m.c, m.w, m.d, z'.z1, z.z1, z.z5, Y * m.s * z.z2 + Y * m.a * z.z3 + Y * m.b * z.z4);
  }

  lemma ShiftedRow3(m: Matrix, z: Terms, z': Terms)
    requires Cached(m) && z' == Next(z)
    ensures Same(Dot(Row3(m), VecOf(z')), Dot(Row2(m), VecOf(z)))
  {
    NextTerm(z);
    hide Same, MacY, MulX;
    ShiftRow(m.b, m.v, m.c, z'.z1, z.z1, z.z5, m.w * z.z2 + Y * m.s * z.z3 + Y * m.a * z.z4);
  }

  lemma ShiftedRow4(m: Matrix, z: Terms, z': Terms)
    requires Cached(m) && z' == Next(z)
    ensures Same(Dot(Row4(m), VecOf(z')), Dot(Row3(m), VecOf(z)))
  {
    NextTerm(z);
    hide Same, MacY, MulX;
    ShiftRow(m.a, m.u, m.b, z'.z1, z.z1, z.z5, m.v * z.z2 + m.w * z.z3 + Y * m.s * z.z4);
  }

  lemma ShiftedRow5(m: Matrix, z: Terms, z': Terms)
    requires Cached(m) && z' == Next(z)
    ensures Same(Dot(Row5(m), VecOf(z')), Dot(Row4(m), VecOf(z)))
  {
    NextTerm(z);
    hide Same, MacY, MulX;
    ShiftRow(m.s, m.t, m.a, z'.z1, z.z1, z.z5, m.u * z.z2 + m.v * z.z3 + m.w * z.z4);
  }

  /** Row 1 applied to Next(z) obeys the recurrence, as an integer identity up to multiples of P. */
  lemma TopRow(m: Matrix, z: Terms, e: int)
    requires Cached(m) && Same(e, X * z.z1 + Y * z.z5)
    ensures Same(Dot(Row1(m), Vec(e, z.z1, z.z2, z.z3, z.z4)), X * Dot(Row1(m), VecOf(z)) + Y * Dot(Row5(m), VecOf(z)))
  {
    hide Dot, Same, Row1, Row5;
    var k := SameWitness(e, X * z.z1 + Y * z.z5);
    var la := SameWitness(m.a, X * m.s + m.t);
    var lb := SameWitness(m.b, X * m.a + m.u);
    var lc := SameWitness(m.c, X * m.b + m.v);
    var ld := SameWitness(m.d, X * m.c + m.w);
    TopTerm(m.a, m.s, m.t, la, z.z2);
    TopTerm(m.b, m.a, m.u, lb, z.z3);
    TopTerm(m.c, m.b, m.v, lc, z.z4);
    TopTerm(m.d, m.c, m.w, ld, z.z5);
    TopFirst(m.d, z.z1, z.z5, k);
    TopForms(m, z, e);
    WitnessSame(Dot(Row1(m), Vec(e, z.z1, z.z2, z.z3, z.z4)), X * Dot(Row1(m), VecOf(z)) + Y * Dot(Row5(m), VecOf(z)),
                m.d * k + Y * (la * z.z2) + Y * (lb * z.z3) + Y * (lc * z.z4) + Y * (ld * z.z5));
  }

  lemma TopForms(m: Matrix, z: Terms, e: int)
    ensures Dot(Row1(m), Vec(e, z.z1, z.z2, z.z3, z.z4))
         == m.d * e + Y * (m.s * z.z1) + Y * (m.a * z.z2) + Y * (m.b * z.z3) + Y * (m.c * z.z4)
    ensures Dot(Row1(m), VecOf(z))
         == m.d * z.z1 + Y * (m.s * z.z2) + Y * (m.a * z.z3) + Y * (m.b * z.z4) + Y * (m.c * z.z5)
    ensures Dot(Row5(m), VecOf(z)) == m.s * z.z1 + m.t * z.z2 + m.u * z.z3 + m.v * z.z4 + m.w * z.z5
  {
  }

  lemma TopTerm(a: int, s: int, t: int, l: int, z: int)
    requires a == X * s + t + P * l
    ensures a * z == X * (s * z) + t * z + P * (l * z)
  {
    assert (X * s + t + P * l) * z == X * (s * z) + t * z + P * (l * z);
  }

  lemma TopFirst(d: int, z1: int, z5: int, k: int)
    ensures d * (X * z1 + Y * z5 + P * k) == X * (d * z1) + Y * (d * z5) + P * (d * k)
  {
  }

  lemma TopSame(r1: Fp, r5: Fp, d1: int, d5: int)
    requires Same(r1, d1) && Same(r5, d5)
    ensures Same(X * r1 + Y * r5, X * d1 + Y * d5)
  {
    SameTimes(X, r1, d1);
    SameTimes(Y, r5, d5);
    SameAdd(X * r1, X * d1, Y * r5, Y * d5);
  }

  lemma Commutes(m: Matrix, z: Terms)
    requires Cached(m)
    ensures Apply(m, Next(z)) == Next(Apply(m, z))
  {
    hide Same, Dot, Apply, Row1, Row2, Row3, Row4, Row5, Cached, MacY, MulX;
    var z', r := Next(z), Apply(m, z);
    var r' := Apply(m, z');
    ApplyIsProduct(m, z);
    ApplyIsProduct(m, z');
    ShiftedRow2(m, z, z');
    ShiftedRow3(m, z, z');
    ShiftedRow4(m, z, z');
    ShiftedRow5(m, z, z');
    Chain(r'.z2, Dot(Row2(m), VecOf(z')), Dot(Row1(m), VecOf(z)), r.z1);
    Chain(r'.z3, Dot(Row3(m), VecOf(z')), Dot(Row2(m), VecOf(z)), r.z2);
    Chain(r'.z4, Dot(Row4(m), VecOf(z')), Dot(Row3(m), VecOf(z)), r.z3);
    Chain(r'.z5, Dot(Row5(m), VecOf(z')), Dot(Row4(m), VecOf(z)), r.z4);
    NextTerm(z);
    NextTerm(r);
    var d1, d5 := Dot(Row1(m), VecOf(z)), Dot(Row5(m), VecOf(z));
    TopRow(m, z, z'.z1);
    TopSame(r.z1, r.z5, d1, d5);
    SameTransitive(Next(r).z1, X * r.z1 + Y * r.z5, X * d1 + Y * d5);
    Chain(r'.z1, Dot(Row1(m), VecOf(z')), X * d1 + Y * d5, Next(r).z1);
  }

  lemma {:induction false} CommutesSteps(m: Matrix, z: Terms, k: nat)
    requires Cached(m)
    ensures Apply(m, Steps(z, k)) == Steps(Apply(m, z), k)
  {
    hide Cached, Apply, Next;
    if k > 0 {
      CommutesSteps(m, z, k - 1);
      Commutes(m, Steps(z, k - 1));
    }
  }

  // ----- Building and multiplying matrices -----

  /** mrg_update_cache. */
  function WithCache(s: Fp, t: Fp, u: Fp, v: Fp, w: Fp): (m: Matrix)
    ensures m.s == s && m.t == t && m.u == u && m.v == v && m.w == w
  {
    var a := Add(MulX(s), t);
    var b := Add(MulX(a), u);
    var c := Add(MulX(b), v);
    var d := Add(MulX(c), w);
    Matrix(s, t, u, v, w, a, b, c, d)
  }

  lemma AddMulXSame(p: Fp, q: Fp)
    ensures Same(Add(MulX(p), q), X * p + q)
  {
    ReducedSame(p * X);
    SameReflexive(q);
    SameAdd(MulX(p), X * p, q, q);
    ReducedSame(MulX(p) + q);
    SameTransitive(Add(MulX(p), q), MulX(p) + q, X * p + q);
  }

  lemma CacheIsCached(s: Fp, t: Fp, u: Fp, v: Fp, w: Fp)
    ensures Cached(WithCache(s, t, u, v, w))
  {
    hide Same, Add, MulX;
    var m := WithCache(s, t, u, v, w);
    AddMulXSame(s, t);
    AddMulXSame(m.a, u);
    AddMulXSame(m.b, v);
    AddMulXSame(m.c, w);
  }

  function Identity(): (m: Matrix) {
    WithCache(0, 0, 0, 0, 1)
  }

  function StepMatrix(): (m: Matrix) {
    WithCache(0, 0, 0, 1, 0)
  }

  /** mrg_multiply: the bottom row of the product, then its cache. */
  function Multiply(m: Matrix, n: Matrix): (r: Matrix) {
    WithCache(
      Mac(Mac(Mac(Mac(Mul(m.s, n.d), m.t, n.c), m.u, n.b), m.v, n.a), m.w, n.s),
      Mac(Mac(Mac(Mac(MulY(Mul(m.s, n.s)), m.t, n.w), m.u, n.v), m.v, n.u), m.w, n.t),
      Mac(Mac(Mac(MulY(Mac(Mul(m.s, n.a), m.t, n.s)), m.u, n.w), m.v, n.v), m.w, n.u),
      Mac(Mac(MulY(Mac(Mac(Mul(m.s, n.b), m.t, n.a), m.u, n.s)), m.v, n.w), m.w, n.v),
      Mac(MulY(Mac(Mac(Mac(Mul(m.s, n.c), m.t, n.b), m.u, n.a), m.v, n.s)), m.w, n.w))
  }

  lemma MultiplyIsCached(m: Matrix, n: Matrix)
    ensures Cached(Multiply(m, n))
  {
    hide WithCache, Cached, Mac, Mul, MulY;
    var r := Multiply(m, n);
    CacheIsCached(r.s, r.t, r.u, r.v, r.w);
  }

  lemma MacSame(sum: Fp, sum': int, a: Fp, b: Fp)
    requires Same(sum, sum')
    ensures Same(Mac(sum, a, b), sum' + a * b)
  {
    ReducedSame(a * b + sum);
    SameReflexive(a * b);
    SameAdd(a * b, a * b, sum, sum');
    SameTransitive(Mac(sum, a, b), a * b + sum, sum' + a * b);
  }

  lemma MulSame(a: Fp, b: Fp)
    ensures Same(Mul(a, b), a * b)
  {
    ReducedSame(a * b);
  }

  lemma MulYSame(a: Fp, a': int)
    requires Same(a, a')
    ensures Same(MulY(a), Y * a')
  {
    ReducedSame(a * Y);
    SameTimes(Y, a, a');
    SameTransitive(MulY(a), Y * a, Y * a');
  }

  /** The bottom row of the product is the bottom row of m times the columns of n. */
  lemma ProductRow(m: Matrix, n: Matrix)
    ensures var r := Multiply(m, n);
      && Same(r.s, Dot(Row5(m), Vec(n.d, n.c, n.b, n.a, n.s)))
      && Same(r.t, Dot(Row5(m), Vec(Y * n.s, n.w, n.v, n.u, n.t)))
      && Same(r.u, Dot(Row5(m), Vec(Y * n.a, Y * n.s, n.w, n.v, n.u)))
      && Same(r.v, Dot(Row5(m), Vec(Y * n.b, Y * n.a, Y * n.s, n.w, n.v)))
      && Same(r.w, Dot(Row5(m), Vec(Y * n.c, Y * n.b, Y * n.a, Y * n.s, n.w)))
  {
    hide *;
    ColumnsAsForms(m, n);
    ProductFirst(m, n);
    ProductSecond(m, n);
    ProductThird(m, n);
    ProductFourth(m, n);
    ProductFifth(m, n);
  }

  lemma ColumnsAsForms(m: Matrix, n: Matrix)
    ensures Dot(Row5(m), Vec(n.d, n.c, n.b, n.a, n.s)) == m.s * n.d + m.t * n.c + m.u * n.b + m.v * n.a + m.w * n.s
    ensures Dot(Row5(m), Vec(Y * n.s, n.w, n.v, n.u, n.t)) == Y * (m.s * n.s) + m.t * n.w + m.u * n.v + m.v * n.u + m.w * n.t
    ensures Dot(Row5(m), Vec(Y * n.a, Y * n.s, n.w, n.v, n.u)) == Y * (m.s * n.a + m.t * n.s) + m.u * n.w + m.v * n.v + m.w * n.u
    ensures Dot(Row5(m), Vec(Y * n.b, Y * n.a, Y * n.s, n.w,
        n.v)) == Y * (m.s * n.b + m.t * n.a + m.u * n.s) + m.v * n.w + m.w * n.v
    ensures Dot(Row5(m), Vec(Y * n.c, Y * n.b, Y * n.a, Y * n.s,
        n.w)) == Y * (m.s * n.c + m.t * n.b + m.u * n.a + m.v * n.s) + m.w * n.w
  {
  }

  lemma ProductFirst(m: Matrix, n: Matrix)
    ensures Same(Multiply(m, n).s, m.s * n.d + m.t * n.c + m.u * n.b + m.v * n.a + m.w * n.s)
  {
    hide Same, Mul, Mac, MulY;
    MulSame(m.s, n.d);
    MacSame(Mul(m.s, n.d), m.s * n.d, m.t, n.c);
    Mac3Same(Mac(Mul(m.s, n.d), m.t, n.c), m.s * n.d + m.t * n.c, m.u, n.b, m.v, n.a, m.w, n.s);
  }

  lemma ProductSecond(m: Matrix, n: Matrix)
    ensures Same(Multiply(m, n).t, Y * (m.s * n.s) + m.t * n.w + m.u * n.v + m.v * n.u + m.w * n.t)
  {
    hide Same, Mul, Mac, MulY;
    MulSame(m.s, n.s);
    MulYSame(Mul(m.s, n.s), m.s * n.s);
    MacSame(MulY(Mul(m.s, n.s)), Y * (m.s * n.s), m.t, n.w);
    Mac3Same(Mac(MulY(Mul(m.s, n.s)), m.t, n.w), Y * (m.s * n.s) + m.t * n.w, m.u, n.v, m.v, n.u, m.w, n.t);
  }

  lemma ProductThird(m: Matrix, n: Matrix)
    ensures Same(Multiply(m, n).u, Y * (m.s * n.a + m.t * n.s) + m.u * n.w + m.v * n.v + m.w * n.u)
  {
    hide Same, Mul, Mac, MulY;
    MulSame(m.s, n.a);
    MacSame(Mul(m.s, n.a), m.s * n.a, m.t, n.s);
    var u0 := Mac(Mul(m.s, n.a), m.t, n.s);
    MulYSame(u0, m.s * n.a + m.t * n.s);
    Mac3Same(MulY(u0), Y * (m.s * n.a + m.t * n.s), m.u, n.w, m.v, n.v, m.w, n.u);
  }

  lemma ProductFourth(m: Matrix, n: Matrix)
    ensures Same(Multiply(m, n).v, Y * (m.s * n.b + m.t * n.a + m.u * n.s) + m.v * n.w + m.w * n.v)
  {
    hide Same, Mul, Mac, MulY;
    MulSame(m.s, n.b);
    MacSame(Mul(m.s, n.b), m.s * n.b, m.t, n.a);
    MacSame(Mac(Mul(m.s, n.b), m.t, n.a), m.s * n.b + m.t * n.a, m.u, n.s);
    var v0 := Mac(Mac(Mul(m.s, n.b), m.t, n.a), m.u, n.s);
    MulYSame(v0, m.s * n.b + m.t * n.a + m.u * n.s);
    MacSame(MulY(v0), Y * (m.s * n.b + m.t * n.a + m.u * n.s), m.v, n.w);
    MacSame(Mac(MulY(v0), m.v, n.w), Y * (m.s * n.b + m.t * n.a + m.u * n.s) + m.v * n.w, m.w, n.v);
  }

  lemma ProductFifth(m: Matrix, n: Matrix)
    ensures Same(Multiply(m, n).w, Y * (m.s * n.c + m.t * n.b + m.u * n.a + m.v * n.s) + m.w * n.w)
  {
    hide Same, Mul, Mac, MulY;
    MulSame(m.s, n.c);
    Mac3Same(Mul(m.s, n.c), m.s * n.c, m.t, n.b, m.u, n.a, m.v, n.s);
    var w0 := Mac(Mac(Mac(Mul(m.s, n.c), m.t, n.b), m.u, n.a), m.v, n.s);
    MulYSame(w0, m.s * n.c + m.t * n.b + m.u * n.a + m.v * n.s);
    MacSame(MulY(w0), Y * (m.s * n.c + m.t * n.b + m.u * n.a + m.v * n.s), m.w, n.w);
  }

  lemma Mac3Same(x: Fp, x': int, a: Fp, b: Fp, c: Fp, d: Fp, e: Fp, f: Fp)
    requires Same(x, x')
    ensures Same(Mac(Mac(Mac(x, a, b), c, d), e, f), x' + a * b + c * d + e * f)
  {
    hide Same, Mac;
    MacSame(x, x', a, b);
    MacSame(Mac(x, a, b), x' + a * b, c, d);
    MacSame(Mac(Mac(x, a, b), c, d), x' + a * b + c * d, e, f);
  }

  lemma ProductLast(m: Matrix, n: Matrix, z: Terms)
    ensures Apply(Multiply(m, n), z).z5 == Apply(m, Apply(n, z)).z5
  {
    hide Same, Apply, Multiply, Dot;
    var r, o, x := Multiply(m, n), Apply(n, z), VecOf(z);
    ProductRow(m, n);
    ApplyIsProduct(n, z);
    ApplyIsProduct(r, z);
    ApplyIsProduct(m, o);
    var cols := Vec(Dot(Row5(m), Vec(n.d, n.c, n.b, n.a, n.s)), Dot(Row5(m), Vec(Y * n.s, n.w, n.v, n.u, n.t)),
                    Dot(Row5(m), Vec(Y * n.a, Y * n.s, n.w, n.v, n.u)), Dot(Row5(m), Vec(Y * n.b, Y * n.a, Y * n.s, n.w, n.v)),
                    Dot(Row5(m), Vec(Y * n.c, Y * n.b, Y * n.a, Y * n.s, n.w)));
    var rows := Vec(Dot(Row1(n), x), Dot(Row2(n), x), Dot(Row3(n), x), Dot(Row4(n), x), Dot(Row5(n), x));
    Associate(Row5(m), Row1(n), Row2(n), Row3(n), Row4(n), Row5(n), x);
    DotSymmetric(Row5(r), x);
    SameDot(x, Row5(r), cols);
    SameDot(Row5(m), VecOf(o), rows);
    SameTransitive(Apply(m, o).z5, Dot(Row5(m), VecOf(o)), Dot(Row5(m), rows));
    Chain(Apply(r, z).z5, Dot(x, Row5(r)), Dot(x, cols), Apply(m, o).z5);
  }

  lemma Window(z: Terms)
    ensures Steps(z, 0).z5 == z.z5 && Steps(z, 1).z5 == z.z4 && Steps(z, 2).z5 == z.z3
    ensures Steps(z, 3).z5 == z.z2 && Steps(z, 4).z5 == z.z1
  {
    hide MacY, MulX;
    assert Steps(z, 1) == Next(z);
    assert Steps(z, 2) == Next(Next(z));
    assert Steps(z, 3) == Next(Next(Next(z)));
    assert Steps(z, 4) == Next(Next(Next(Next(z))));
  }

  lemma ProductWindow(m: Matrix, n: Matrix, z: Terms, k: nat)
    requires Cached(m) && Cached(n)
    ensures Steps(Apply(Multiply(m, n), z), k).z5 == Steps(Apply(m, Apply(n, z)), k).z5
  {
    hide *;
    MultiplyIsCached(m, n);
    CommutesSteps(Multiply(m, n), z, k);
    CommutesSteps(n, z, k);
    CommutesSteps(m, Apply(n, z), k);
    ProductLast(m, n, Steps(z, k));
  }

  /** mrg_multiply computes the product of the matrices. */
  lemma ProductApplies(m: Matrix, n: Matrix, z: Terms)
    requires Cached(m) && Cached(n)
    ensures Apply(Multiply(m, n), z) == Apply(m, Apply(n, z))
  {
    hide *;
    Window(Apply(Multiply(m, n), z));
    Window(Apply(m, Apply(n, z)));
    ProductWindow(m, n, z, 0); ProductWindow(m, n, z, 1); ProductWindow(m, n, z, 2);
    ProductWindow(m, n, z, 3); ProductWindow(m, n, z, 4);
  }

  // ----- Powers and the jump table -----

  /** Applying m is taking n single steps. */
  ghost predicate Represents(m: Matrix, n: nat) {
    Cached(m) && forall z: Terms :: Apply(m, z) == Steps(z, n)
  }

  lemma RepresentsAt(m: Matrix, n: nat, z: Terms)
    requires Represents(m, n)
    ensures Cached(m) && Apply(m, z) == Steps(z, n)
  {
  }

  lemma ProductRepresentsAt(m: Matrix, n: Matrix, j: nat, k: nat, z: Terms)
    requires Represents(m, j) && Represents(n, k)
    ensures Apply(Multiply(m, n), z) == Steps(z, j + k)
  {
    hide Represents, Same, Apply, Multiply, Steps;
    RepresentsAt(n, k, z);
    RepresentsAt(m, j, Steps(z, k));
    ProductApplies(m, n, z);
    StepsCompose(z, k, j);
  }

  lemma ProductRepresents(m: Matrix, n: Matrix, j: nat, k: nat)
    requires Represents(m, j) && Represents(n, k)
    ensures Represents(Multiply(m, n), j + k)
  {
    hide Same, Apply, Multiply, Steps, Cached;
    MultiplyIsCached(m, n);
    forall z ensures Apply(Multiply(m, n), z) == Steps(z, j + k) {
      ProductRepresentsAt(m, n, j, k, z);
    }
  }

  lemma IdentityRepresents()
    ensures Represents(Identity(), 0)
  {
    CacheIsCached(0, 0, 0, 0, 1);
    forall z ensures Apply(Identity(), z) == z {
      IdentityApplies(z);
    }
  }

  lemma IdentityRows(z: Terms)
    ensures var m := Identity();
      && Dot(Row1(m), VecOf(z)) == z.z1 && Dot(Row2(m), VecOf(z)) == z.z2 && Dot(Row3(m), VecOf(z)) == z.z3
      && Dot(Row4(m), VecOf(z)) == z.z4 && Dot(Row5(m), VecOf(z)) == z.z5
  {
    assert Identity() == Matrix(0, 0, 0, 0, 1, 0, 0, 0, 1);
  }

  lemma IdentityApplies(z: Terms)
    ensures Apply(Identity(), z) == z
  {
    hide *;
    IdentityRows(z);
    ApplyIsProduct(Identity(), z);
    var r := Apply(Identity(), z);
    SameEqual(r.z1, z.z1); SameEqual(r.z2, z.z2); SameEqual(r.z3, z.z3); SameEqual(r.z4, z.z4); SameEqual(r.z5, z.z5);
  }

  lemma StepMatrixRows(z: Terms)
    ensures var m := StepMatrix();
      && Dot(Row1(m), VecOf(z)) == X * z.z1 + Y * z.z5 && Dot(Row2(m), VecOf(z)) == z.z1
      && Dot(Row3(m), VecOf(z)) == z.z2 && Dot(Row4(m), VecOf(z)) == z.z3 && Dot(Row5(m), VecOf(z)) == z.z4
  {
    assert StepMatrix() == Matrix(0, 0, 0, 1, 0, 0, 0, 1, X);
  }

  lemma StepMatrixApplies(z: Terms)
    ensures Apply(StepMatrix(), z) == Next(z)
  {
    hide Apply, StepMatrix, Dot, Same, Row1, Row2, Row3, Row4, Row5, MacY, MulX;
    StepMatrixRows(z);
    ApplyIsProduct(StepMatrix(), z);
    var r := Apply(StepMatrix(), z);
    NextTerm(z);
    SameReflexive(X * z.z1 + Y * z.z5);
    Chain(r.z1, X * z.z1 + Y * z.z5, X * z.z1 + Y * z.z5, Next(z).z1);
    SameEqual(r.z2, z.z1); SameEqual(r.z3, z.z2); SameEqual(r.z4, z.z3); SameEqual(r.z5, z.z4);
  }

  lemma StepMatrixRepresents()
    ensures Represents(StepMatrix(), 1)
  {
    CacheIsCached(0, 0, 0, 1, 0);
    forall z ensures Apply(StepMatrix(), z) == Steps(z, 1) {
      StepMatrixApplies(z);
      assert Steps(z, 1) == Next(Steps(z, 0));
    }
  }

  /** mrg_power: binary exponentiation. */
  method Power(m: Matrix, exponent: nat, ghost n: nat) returns (result: Matrix)
    requires Represents(m, n)
    ensures Represents(result, n * exponent)
  {
    hide *;
    IdentityRepresents();
    var e, current := exponent, m;
    result := Identity();
    ghost var cn, rn := n, 0;
    while e > 0
      invariant Represents(current, cn) && Represents(result, rn)
      invariant rn + cn * e == n * exponent
      decreases e
    {
      HalvesAgree(cn, e);
      if e % 2 == 1 {
        ProductRepresents(result, current, rn, cn);
        result := Multiply(result, current);
        rn := rn + cn;
      }
      ProductRepresents(current, current, cn, cn);
      current := Multiply(current, current);
      cn := cn + cn;
      e := e / 2;
    }
  }

  lemma HalvesAgree(c: nat, e: nat)
    ensures c * e == (c + c) * (e / 2) + (if e % 2 == 1 then c else 0)
  {
    var h := e / 2;
    assert e == 2 * h + e % 2;
    if e % 2 == 1 {
      assert c * (2 * h + 1) == (c + c) * h + c;
    } else {
      assert c * (2 * h) == (c + c) * h;
    }
  }

  ghost function Pow256(i: nat): (r: nat)
    ensures r > 0
  {
    if i == 0 then 1 else 256 * Pow256(i - 1)
  }

  /** Row i holds the matrices of 0, 1, ..., 255 times 256^i steps. */
  ghost predicate IsTable(table: seq<seq<Matrix>>) {
    && |table| == 24
    && forall i :: 0 <= i < 24 ==> IsTableRow(table[i], Pow256(i))
  }

  ghost predicate IsTableRow(row: seq<Matrix>, unit: nat) {
    && |row| == 256
    && forall j :: 0 <= j < 256 ==> Represents(row[j], unit * j)
  }

  /** One row of dump_mrg_powers, from the matrix of one unit. */
  method BuildRow(first: Matrix, ghost unit: nat) returns (row: seq<Matrix>)
    requires Represents(first, unit)
    ensures IsTableRow(row, unit)
  {
    hide Represents;
    IdentityRepresents();
    row := [Identity(), first];
    for j := 2 to 256
      invariant |row| == j
      invariant forall k :: 0 <= k < j ==> Represents(row[k], unit * k)
    {
      var m := Power(first, j, unit);
      row := row + [m];
    }
  }

  /** dump_mrg_powers. */
  method BuildTable() returns (table: seq<seq<Matrix>>)
    ensures |table| == 24
    ensures forall i :: 0 <= i < 24 ==> IsTableRow(table[i], Pow256(i))
  {
    hide *;
    Pow256Zero();
    StepMatrixRepresents();
    var first := StepMatrix();
    var row0 := BuildRow(first, 1);
    table := [row0];
    for i := 1 to 24
      invariant |table| == i
      invariant Represents(first, Pow256(i - 1))
      invariant forall k :: 0 <= k < i ==> IsTableRow(table[k], Pow256(k))
    {
      Pow256Next(i - 1);
      first := Power(first, 256, Pow256(i - 1));
      var row := BuildRow(first, Pow256(i));
      table := table + [row];
    }
  }

  // ----- The generator state -----

  class State {
    var z1: Fp
    var z2: Fp
    var z3: Fp
    var z4: Fp
    var z5: Fp

    function Value(): (z: Terms)
      reads this
    {
      Terms(z1, z2, z3, z4, z5)
    }

    /** mrg_seed. */
    constructor (seed: seq<Fp>)
      requires |seed| == 5
      ensures Value() == Terms(seed[0], seed[1], seed[2], seed[3], seed[4])
    {
      z1, z2, z3, z4, z5 := seed[0], seed[1], seed[2], seed[3], seed[4];
    }

    /** mrg_orig_step. */
    method OrigStep()
      modifies this
      ensures Value() == Steps(old(Value()), 1)
    {
      assert Steps(Value(), 1) == Next(Steps(Value(), 0));
      var newElt := MacY(MulX(z1), z5);
      z5 := z4;
      z4 := z3;
      z3 := z2;
      z2 := z1;
      z1 := newElt;
    }

    /** mrg_get_uint_orig: the terms of the recurrence, one per call. */
    method GetUint() returns (r: Fp)
      modifies this
      ensures Value() == Steps(old(Value()), 1) && r == Value().z1
    {
      OrigStep();
      r := z1;
    }

    /** mrg_step. */
    method Step(mat: Matrix)
      modifies this
      ensures Value() == Apply(mat, old(Value()))
    {
      var r := Apply(mat, Value());
      z1, z2, z3, z4, z5 := r.z1, r.z2, r.z3, r.z4, r.z5;
    }

    /** One of the three byte loops of mrg_skip; its table rows start at first. */
    method SkipWord(table: seq<seq<Matrix>>, first: nat, exponent: nat)
      requires IsTable(table) && first <= 16 && exponent < Pow256(8)
      modifies this
      ensures Value() == Steps(old(Value()), exponent * Pow256(first))
    {
      hide *;
      ghost var start := Value();
      ghost var done: nat := 0;
      StepsZero(start);
      var byteIndex, e: nat := first, exponent;
      while e != 0
        invariant first <= byteIndex <= first + 8
        invariant e < Pow256(first + 8 - byteIndex)
        invariant Value() == Steps(start, done)
        invariant done + e * Pow256(byteIndex) == exponent * Pow256(first)
        decreases e
      {
        Pow256Zero();
        var val := e % 256;
        TableEntry(table, byteIndex, val);
        SplitByte(e, Pow256(byteIndex));
        Pow256Next(byteIndex);
        Pow256Next(first + 7 - byteIndex);
        if val != 0 {
          StepsCompose(start, done, Pow256(byteIndex) * val);
          RepresentsAt(table[byteIndex][val], Pow256(byteIndex) * val, Value());
          Step(table[byteIndex][val]);
          done := done + Pow256(byteIndex) * val;
        }
        byteIndex := byteIndex + 1;
        e := e / 256;
      }
    }

    /** mrg_skip: jump ahead by a 192-bit number of steps. */
    method Skip(table: seq<seq<Matrix>>, high: nat, middle: nat, low: nat)
      requires IsTable(table)
      requires high < W64 && middle < W64 && low < W64
      modifies this
      ensures Value() == Steps(old(Value()), low + W64 * middle + W64 * W64 * high)
    {
      hide *;
      ghost var start := Value();
      Words();
      SkipWord(table, 0, low);
      StepsCompose(start, low, W64 * middle);
      SkipWord(table, 8, middle);
      StepsCompose(start, low + W64 * middle, W64 * W64 * high);
      SkipWord(table, 16, high);
    }
  }

  lemma StepsZero(z: Terms)
    ensures Steps(z, 0) == z
  {
  }

  lemma Pow256Zero()
    ensures Pow256(0) == 1
  {
  }

  lemma Pow256Next(i: int)
    requires i >= 0
    ensures Pow256(i + 1) == 256 * Pow256(i)
  {
  }

  lemma SplitByte(e: nat, unit: nat)
    ensures e * unit == unit * (e % 256) + (e / 256) * (256 * unit)
  {
    assert e == 256 * (e / 256) + e % 256;
    assert (256 * (e / 256) + e % 256) * unit == unit * (e % 256) + (e / 256) * (256 * unit);
  }

  lemma TableEntry(table: seq<seq<Matrix>>, i: nat, j: nat)
    requires IsTable(table) && i < 24 && j < 256
    ensures |table| == 24 && |table[i]| == 256 && Represents(table[i][j], Pow256(i) * j)
  {
    hide Represents;
    assert IsTableRow(table[i], Pow256(i));
  }

  lemma Words()
    ensures Pow256(0) == 1 && Pow256(8) == W64 && Pow256(16) == W64 * W64
  {
    assert Pow256(4) == 0x1_0000_0000;
    assert Pow256(8) == W64;
    assert Pow256(12) == W64 * 0x1_0000_0000;
  }
}
