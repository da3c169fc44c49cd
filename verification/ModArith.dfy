/**
  Arithmetic modulo the Mersenne prime 2^31 - 1, in the two forms the generator
  can be built with: direct 64-bit expressions, and 32-bit folding and Schrage
  multiplication. Machine words are written out; both forms are proved exact.
*/
module ModArith {

  const P: int := 0x7FFF_FFFF
  const W64: int := 0x1_0000_0000_0000_0000
  const W32: int := 0x1_0000_0000

  /** The multipliers of the recurrence. */
  const X: int := 107374182
  const Y: int := 104480

  /** The residues. */
  type Fp = a: int | 0 <= a < P

  /** A value stored in an unsigned 64-bit or 32-bit word. */
  function U64(a: int): (r: int)
    ensures 0 <= a < W64 ==> r == a
  {
    a % W64
  }

  function U32(a: int): (r: int) {
    a % W32
  }

  lemma MulBound(a: int, b: int, n: int)
    requires 0 <= a <= n && 0 <= b <= n
    ensures 0 <= a * b <= n * n
  {
    assert 0 <= a * b && 0 <= a * (n - b) && 0 <= (n - a) * n;
    assert n * n == a * b + a * (n - b) + (n - a) * n;
  }

  /** A product of two residues, as a 64-bit word; it never wraps. */
  function Prod(a: Fp, b: Fp): (r: int)
    ensures r == a * b && 0 <= r <= 0x3FFF_FFFE_0000_0004
  {
    MulBound(a, b, P - 1);
    U64(a * b)
  }

  /** Up to four such products and a residue, summed word by word without a wrap. */
  function Sum4(p: int, q: int, r: int, s: int, sum: Fp): (t: int)
    requires 0 <= p <= 0x3FFF_FFFE_0000_0004 && 0 <= q <= 0x3FFF_FFFE_0000_0004
    requires 0 <= r <= 0x3FFF_FFFE_0000_0004 && 0 <= s <= 0x3FFF_FFFE_0000_0004
    ensures t == p + q + r + s + sum
  {
    U64(U64(U64(U64(p + q) + r) + s) + sum)
  }

  // ----- mod_arith_64bit.h -----

  function Add(a: Fp, b: Fp): (r: Fp)
    ensures r == (a + b) % P
  {
    U64(a + b) % P
  }

  function Mul(a: Fp, b: Fp): (r: Fp)
    ensures r == a * b % P
  {
    Prod(a, b) % P
  }

  function Mac(sum: Fp, a: Fp, b: Fp): (r: Fp)
    ensures r == (a * b + sum) % P
  {
    Sum4(Prod(a, b), 0, 0, 0, sum) % P
  }

  function Mac2(sum: Fp, a: Fp, b: Fp, c: Fp, d: Fp): (r: Fp)
    ensures r == (a * b + c * d + sum) % P
  {
    Sum4(Prod(a, b), Prod(c, d), 0, 0, sum) % P
  }

  function Mac3(sum: Fp, a: Fp, b: Fp, c: Fp, d: Fp, e: Fp, f: Fp): (r: Fp)
    ensures r == (a * b + c * d + e * f + sum) % P
  {
    Sum4(Prod(a, b), Prod(c, d), Prod(e, f), 0, sum) % P
  }

  /** Four products and a summand still fit 64 bits, so the one reduction at the end is exact. */
  function Mac4(sum: Fp, a: Fp, b: Fp, c: Fp, d: Fp, e: Fp, f: Fp, g: Fp, h: Fp): (r: Fp)
    ensures r == (a * b + c * d + e * f + g * h + sum) % P
  {
    Sum4(Prod(a, b), Prod(c, d), Prod(e, f), Prod(g, h), sum) % P
  }

  function MulX(a: Fp): (r: Fp)
    ensures r == a * X % P
  {
    Mul(a, X)
  }

  function MulY(a: Fp): (r: Fp)
    ensures r == a * Y % P
  {
    Mul(a, Y)
  }

  function MacY(sum: Fp, a: Fp): (r: Fp)
    ensures r == (a * Y + sum) % P
  {
    Mac(sum, a, Y)
  }

  // ----- mod_arith_32bit.h -----

  function Add32(a: Fp, b: Fp): (r: Fp)
    ensures r == (a + b) % P
  {
    var x := U32(a + b);
    if x >= P then x - P else x
  }

  /** Fold the part above bit 31 onto the part below: 2^31 is 1 modulo P. */
  function Fold(temp: int): (r: int)
    requires 0 <= temp <= 0x3FFF_FFFE_8000_0002
    ensures r == temp % P
  {
    var temp2 := U32(temp % 0x8000_0000 + temp / 0x8000_0000);
    if temp2 >= P then temp2 - P else temp2
  }

  function Mul32(a: Fp, b: Fp): (r: Fp)
    ensures r == a * b % P
  {
    Fold(Prod(a, b))
  }

  function Mac32(sum: Fp, a: Fp, b: Fp): (r: Fp)
    ensures r == (a * b + sum) % P
  {
    Fold(Sum4(Prod(a, b), 0, 0, 0, sum))
  }

  // Sums of several products reduce after every one of them.

  function Mac2Of32(sum: Fp, a: Fp, b: Fp, c: Fp, d: Fp): (r: Fp) {
    Mac32(Mac32(sum, a, b), c, d)
  }

  function Mac3Of32(sum: Fp, a: Fp, b: Fp, c: Fp, d: Fp, e: Fp, f: Fp): (r: Fp) {
    Mac32(Mac2Of32(sum, a, b, c, d), e, f)
  }

  function Mac4Of32(sum: Fp, a: Fp, b: Fp, c: Fp, d: Fp, e: Fp, f: Fp, g: Fp, h: Fp): (r: Fp) {
    Mac32(Mac3Of32(sum, a, b, c, d, e, f), g, h)
  }

  /** Every step of Schrage's method stays inside a signed 32-bit word. */
  predicate FitsInt32(a: int) {
    -0x8000_0000 <= a < 0x8000_0000
  }

  function Schrage(a: int, m: int, q: int, r: int): (res: int)
    requires q > 0
  {
    var quot := a / q;
    var t := m * (a - quot * q) - quot * r;
    if t < 0 then t + P else t
  }

  lemma ModUnique(n: int, r: int, k: int)
    requires n == r + P * k && 0 <= r < P
    ensures n % P == r
  {
    assert n / P == k;
  }

  lemma SchrageSplit(m: int, q: int, r: int, quot: int, rem: int)
    ensures (quot * q + rem) * m == (m * rem - quot * r) + (m * q + r) * quot
  {
  }

  lemma SchrageExact(a: int, m: int, q: int, r: int, quot: int, rem: int)
    requires m * q + r == P
    requires q > 0 && quot == a / q && a == quot * q + rem
    requires 0 <= m * rem < P && 0 <= quot * r < P
    ensures Schrage(a, m, q, r) == a * m % P
  {
    SchrageSplit(m, q, r, quot, rem);
    var t := m * rem - quot * r;
    if t < 0 {
      ModUnique(a * m, t + P, quot - 1);
    } else {
      ModUnique(a * m, t, quot);
    }
  }

  lemma SchrageX(a: Fp)
    ensures Schrage(a, X, 20, 7) == a * X % P
    ensures var quot := a / 20; var rem := a - quot * 20;
            FitsInt32(X * rem) && FitsInt32(quot * 7) && FitsInt32(X * rem - quot * 7)
  {
    var quot := a / 20;
    SchrageExact(a, X, 20, 7, quot, a - quot * 20);
  }

  lemma SchrageY(a: Fp)
    ensures Schrage(a, Y, 20554, 1727) == a * Y % P
    ensures var quot := a / 20554; var rem := a - quot * 20554;
            FitsInt32(Y * rem) && FitsInt32(quot * 1727) && FitsInt32(Y * rem - quot * 1727)
  {
    var quot := a / 20554;
    SchrageExact(a, Y, 20554, 1727, quot, a - quot * 20554);
  }

  /** Reducing once at the end and reducing after every product come to the same. */
  lemma SumsAgree(sum: Fp, a: Fp, b: Fp, c: Fp, d: Fp, e: Fp, f: Fp, g: Fp, h: Fp)
    ensures Mac2Of32(sum, a, b, c, d) == Mac2(sum, a, b, c, d)
    ensures Mac3Of32(sum, a, b, c, d, e, f) == Mac3(sum, a, b, c, d, e, f)
    ensures Mac4Of32(sum, a, b, c, d, e, f, g, h) == Mac4(sum, a, b, c, d, e, f, g, h)
  {
    hide Mac32, Mac2, Mac3, Mac4;
    AddReduced(c * d, a * b + sum);
    AddReduced(e * f, a * b + c * d + sum);
    AddReduced(g * h, a * b + c * d + e * f + sum);
  }

  /** The two headers agree on the operations of one product. */
  lemma HeadersAgree(sum: Fp, a: Fp, b: Fp)
    ensures Add32(a, b) == Add(a, b)
    ensures Mul32(a, b) == Mul(a, b)
    ensures Mac32(sum, a, b) == Mac(sum, a, b)
    ensures Schrage(a, X, 20, 7) == MulX(a)
    ensures Schrage(a, Y, 20554, 1727) == MulY(a)
    ensures Add32(sum, MulY(a)) == MacY(sum, a)
  {
    hide *;
    SchrageX(a);
    SchrageY(a);
    AddReduced(sum, a * Y);
  }

  lemma AddReduced(a: int, b: int)
    ensures (a + b % P) % P == (b + a) % P
  {
    var q := b / P;
    assert a + b % P == (b + a) + P * (-q);
    AddMultiple(b + a, -q);
  }

  lemma AddMultiple(a: int, k: int)
    ensures (a + P * k) % P == a % P
  {
    var q, r := a / P, a % P;
    assert a + P * k == r + P * (q + k);
    ModUnique(a + P * k, r, q + k);
  }
}
