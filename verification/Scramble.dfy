/**
  The scrambling of vertex numbers: multiplications by odd numbers modulo 2^64 and bit
  reversals, which together permute [0, 2^lgN); and the choice of one edge.
*/
module Scramble {

  function Pow2(n: nat): (p: nat)
    ensures p > 0
  {
    if n == 0 then 1 else 2 * Pow2(n - 1)
  }

  type Bits = seq<bool>

  /** The low n bits of a number, lowest first. */
  function ToBits(x: nat, n: nat): (b: Bits)
    ensures |b| == n
  {
    if n == 0 then [] else [x % 2 == 1] + ToBits(x / 2, n - 1)
  }

  function Value(b: Bits): (x: nat)
    ensures x < Pow2(|b|)
  {
    if b == [] then 0 else (if b[0] then 1 else 0) + 2 * Value(b[1..])
  }

  // ----- Words -----

  const WIDTH := 64

  function Shr(b: Bits, s: nat): (r: Bits)
    requires s <= |b|
    ensures |r| == |b|
  {
    b[s..] + seq(s, i => false)
  }

  function Shl(b: Bits, s: nat): (r: Bits)
    requires s <= |b|
    ensures |r| == |b|
  {
    seq(s, i => false) + b[..|b| - s]
  }

  function And(a: Bits, b: Bits): (r: Bits)
    requires |a| == |b|
    ensures |r| == |a| && forall i :: 0 <= i < |a| ==> r[i] == (a[i] && b[i])
  {
    seq(|a|, i requires 0 <= i < |a| => a[i] && b[i])
  }

  function Or(a: Bits, b: Bits): (r: Bits)
    requires |a| == |b|
    ensures |r| == |a| && forall i :: 0 <= i < |a| ==> r[i] == (a[i] || b[i])
  {
    seq(|a|, i requires 0 <= i < |a| => a[i] || b[i])
  }

  /** 0x5555..., 0x3333..., 0x0F0F... and so on: ones in every other block of s bits. */
  function Mask(s: nat): (r: Bits)
    requires s > 0
    ensures |r| == WIDTH && forall i :: 0 <= i < WIDTH ==> r[i] == EvenBlock(i, s)
  {
    seq(WIDTH, i => EvenBlock(i, s))
  }

  /** Whether a position lies in a block of even number. */
  predicate EvenBlock(i: int, s: nat)
    requires s > 0
  {
    i / s % 2 == 0
  }

  /** Exchanges neighbouring blocks of s bits. */
  function SwapBlocks(x: Bits, s: nat): (r: Bits)
    requires |x| == WIDTH && 0 < s <= 32
    ensures |r| == WIDTH
  {
    Or(And(Shr(x, s), Mask(s)), Shl(And(x, Mask(s)), s))
  }

  /** bitreverse. */
  function BitReverse(x: Bits): (r: Bits)
    requires |x| == WIDTH
    ensures |r| == WIDTH
  {
    var x1 := Or(Shr(x, 32), Shl(x, 32));
    var x2 := SwapBlocks(x1, 16);
    var x3 := SwapBlocks(x2, 8);
    var x4 := SwapBlocks(x3, 4);
    var x5 := SwapBlocks(x4, 2);
    SwapBlocks(x5, 1)
  }

  function Reversed(b: Bits): (r: Bits)
    ensures |r| == |b| && forall i :: 0 <= i < |b| ==> r[i] == b[|b| - 1 - i]
  {
    seq(|b|, i requires 0 <= i < |b| => b[|b| - 1 - i])
  }

  /** The mirror image of a position within its block of s bits. */
  function Mirror(i: int, s: nat): (j: int)
    requires s > 0
  {
    i / s * s + (s - 1 - i % s)
  }

  /** y holds the bits of x, mirrored within blocks of s. */
  ghost predicate Mirrored(x: Bits, y: Bits, s: nat)
    requires s > 0
  {
    |x| == |y| == WIDTH && forall i :: 0 <= i < WIDTH ==> 0 <= Mirror(i, s) < WIDTH && y[i] == x[Mirror(i, s)]
  }

  /** The blocks that are exchanged; the exchange of halves comes first and is simpler. */
  predicate BlockSize(s: nat) {
    s in {1, 2, 4, 8, 16}
  }

  /** A position in a block of even number has a whole block after it. */
  lemma RoomAfter(i: int, s: nat)
    requires BlockSize(s) && 0 <= i < WIDTH && EvenBlock(i, s)
    ensures i + s < WIDTH
  {
  }

  /** One block to the left the number is one less. */
  lemma Neighbour(i: int, s: nat)
    requires s > 0 && 0 <= i
    ensures i >= s ==> EvenBlock(i - s, s) == !EvenBlock(i, s)
    ensures i < s ==> EvenBlock(i, s)
  {
    if i >= s {
      OneLess(i, s);
    } else {
      DivIs(i, s, 0, i);
    }
  }

  lemma OneLess(i: int, s: int)
    requires s > 0
    ensures (i - s) / s == i / s - 1
  {
    var q, r := i / s, i % s;
    assert s * (q - 1) == s * q - s;
    DivIs(i - s, s, q - 1, r);
  }

  lemma Swap(x: Bits, s: nat, i: int)
    requires |x| == WIDTH && BlockSize(s) && 0 <= i < WIDTH
    ensures var j := if EvenBlock(i, s) then i + s else i - s; 0 <= j < WIDTH && SwapBlocks(x, s)[i] == x[j]
  {
    hide EvenBlock;
    Neighbour(i, s);
    if EvenBlock(i, s) {
      RoomAfter(i, s);
    }
  }

  lemma MirrorIn(i: int, s: nat)
    requires BlockSize(s) && 0 <= i < WIDTH
    ensures 0 <= Mirror(i, s) < WIDTH
  {
  }

  lemma MirrorTwice(i: int, s: nat)
    requires BlockSize(s) && 0 <= i < WIDTH
    ensures var j := Mirror(i, s); 0 <= j < WIDTH && Mirror(i, 2 * s) == if EvenBlock(j, s) then j + s else j - s
  {
    MirrorIn(i, s);
    var q, r := i / s, i % s;
    Reassembled(i, s, q, r);
    DivIs(Mirror(i, s), s, q, s - 1 - r);
    var half, odd := q / 2, q % 2;
    Pairs(q, half, odd, s, r);
    DivIs(i, 2 * s, half, odd * s + r);
  }

  lemma Reassembled(i: int, s: int, q: int, r: int)
    requires s > 0 && q == i / s && r == i % s
    ensures i == s * q + r && 0 <= r < s && q * s == s * q
  {
  }

  lemma Pairs(q: int, half: int, odd: int, s: int, r: int)
    requires q == 2 * half + odd && 0 <= odd <= 1 && 0 <= r < s
    ensures s * q + r == (2 * s) * half + (odd * s + r) && 0 <= odd * s + r < 2 * s
    ensures half * (2 * s) + (2 * s - 1 - (odd * s + r)) == q * s + (s - 1 - r) + if odd == 0 then s else 0 - s
  {
    assert s * (2 * half + odd) == (2 * s) * half + s * odd;
    if odd == 0 {
      assert odd * s == 0;
    } else {
      assert odd * s == s;
    }
  }

  /** Exchanging neighbouring blocks before mirroring within them mirrors within the pairs. */
  lemma Stage(x: Bits, y: Bits, s: nat)
    requires BlockSize(s) && |x| == WIDTH && Mirrored(SwapBlocks(x, s), y, s)
    ensures Mirrored(x, y, 2 * s)
  {
    hide SwapBlocks, Mirror;
    forall i | 0 <= i < WIDTH ensures 0 <= Mirror(i, 2 * s) < WIDTH && y[i] == x[Mirror(i, 2 * s)] {
      MirrorTwice(i, s);
      Swap(x, s, Mirror(i, s));
    }
  }

  lemma Stage32(x: Bits, y: Bits)
    requires |x| == WIDTH && Mirrored(Or(Shr(x, 32), Shl(x, 32)), y, 32)
    ensures y == Reversed(x)
  {
    hide Mirror;
    forall i | 0 <= i < WIDTH ensures y[i] == x[WIDTH - 1 - i] {
      MirrorHalf(i);
    }
  }

  lemma MirrorHalf(i: int)
    requires 0 <= i < WIDTH
    ensures Mirror(i, 32) == if i < 32 then 31 - i else 95 - i
  {
  }

  /** Swapping ever larger blocks mirrors ever larger blocks, and in the end the whole word. */
  lemma BitReverseReverses(x: Bits)
    requires |x| == WIDTH
    ensures BitReverse(x) == Reversed(x)
  {
    hide SwapBlocks, Mirrored, Or, Shr, Shl;
    var x1 := Or(Shr(x, 32), Shl(x, 32));
    var x2 := SwapBlocks(x1, 16);
    var x3 := SwapBlocks(x2, 8);
    var x4 := SwapBlocks(x3, 4);
    var x5 := SwapBlocks(x4, 2);
    var y := SwapBlocks(x5, 1);
    MirroredSelf(y);
    Stage(x5, y, 1);
    Stage(x4, y, 2);
    Stage(x3, y, 4);
    Stage(x2, y, 8);
    Stage(x1, y, 16);
    Stage32(x, y);
  }

  /** __builtin_bswap64: the bytes in the opposite order. */
  function ByteSwap(x: Bits): (r: Bits)
    requires |x| == WIDTH
    ensures |r| == WIDTH && forall i :: 0 <= i < WIDTH ==> r[i] == x[(7 - i / 8) * 8 + i % 8]
  {
    seq(WIDTH, i requires 0 <= i < WIDTH => x[(7 - i / 8) * 8 + i % 8])
  }

  /** bitreverse where the compiler has a byte swap. */
  function SwappedReverse(x: Bits): (r: Bits)
    requires |x| == WIDTH
    ensures |r| == WIDTH
  {
    SwapBlocks(SwapBlocks(SwapBlocks(ByteSwap(x), 4), 2), 1)
  }

  /** It is the same function. */
  lemma SwappedReverseReverses(x: Bits)
    requires |x| == WIDTH
    ensures SwappedReverse(x) == BitReverse(x) == Reversed(x)
  {
    hide SwapBlocks, Mirrored, Mirror, ByteSwap, BitReverse;
    BitReverseReverses(x);
    var x3 := ByteSwap(x);
    var x4 := SwapBlocks(x3, 4);
    var x5 := SwapBlocks(x4, 2);
    var y := SwapBlocks(x5, 1);
    MirroredSelf(y);
    Stage(x5, y, 1);
    Stage(x4, y, 2);
    Stage(x3, y, 4);
    BytesMirrored(x, y);
  }

  lemma BytesMirrored(x: Bits, y: Bits)
    requires |x| == WIDTH && Mirrored(ByteSwap(x), y, 8)
    ensures y == Reversed(x)
  {
    hide ByteSwap;
    forall i | 0 <= i < WIDTH ensures y[i] == x[WIDTH - 1 - i] {
      var j := Mirror(i, 8);
      assert j / 8 == i / 8 && j % 8 == 7 - i % 8;
      assert y[i] == ByteSwap(x)[j];
    }
  }

  lemma MirroredSelf(y: Bits)
    requires |y| == WIDTH
    ensures Mirrored(y, y, 1)
  {
  }

  // ----- Bits and numbers -----

  lemma {:induction false} ValueShift(b: Bits, s: nat)
    requires s <= |b|
    ensures Value(b) / Pow2(s) == Value(b[s..])
  {
    if s == 0 {
      assert b[0..] == b;
    } else {
      ValueShift(b[1..], s - 1);
      assert b[1..][s - 1..] == b[s..];
      DivTwice(Value(b), Pow2(s - 1));
    }
  }

  lemma DivTwice(x: nat, p: nat)
    requires p > 0
    ensures x / (2 * p) == x / 2 / p
  {
    var h := x / 2;
    var q, r := h / p, h % p;
    assert h == p * q + r;
    Doubled(x, h, p, q, r);
    DivIs(x, 2 * p, q, 2 * r + x % 2);
  }

  /** Quotient and remainder are unique. */
  lemma DivIs(x: int, p: int, q: int, r: int)
    requires p > 0 && x == p * q + r && 0 <= r < p
    ensures x / p == q && x % p == r
  {
    var d := x / p - q;
    assert p * d == r - x % p;
    if d >= 1 {
      AtLeast(p, d);
    } else if d <= -1 {
      AtLeast(p, -d);
    }
  }

  lemma AtLeast(p: int, d: int)
    requires p > 0 && d >= 1
    ensures p * d >= p && p * (0 - d) <= 0 - p
  {
  }

  lemma {:induction false} ToBitsValue(b: Bits)
    ensures ToBits(Value(b), |b|) == b
  {
    if b != [] {
      ToBitsValue(b[1..]);
      assert b == [b[0]] + b[1..];
    }
  }

  lemma {:induction false} ToBitsTake(x: nat, n: nat, k: nat)
    requires k <= n
    ensures ToBits(x, n)[..k] == ToBits(x, k)
  {
    if k > 0 {
      ToBitsTake(x / 2, n - 1, k - 1);
    }
  }

  lemma {:induction false} ValueToBits(x: nat, n: nat)
    ensures Value(ToBits(x, n)) == x % Pow2(n)
  {
    if n == 0 {
      assert x % 1 == 0;
    } else {
      ValueToBits(x / 2, n - 1);
      ModTwice(x, Pow2(n - 1));
      assert ToBits(x, n)[1..] == ToBits(x / 2, n - 1);
    }
  }

  lemma ModTwice(x: nat, p: nat)
    requires p > 0
    ensures x % (2 * p) == 2 * (x / 2 % p) + x % 2
  {
    var h := x / 2;
    var q, r := h / p, h % p;
    assert h == p * q + r;
    Doubled(x, h, p, q, r);
    DivIs(x, 2 * p, q, 2 * r + x % 2);
  }

  lemma Doubled(x: int, h: int, p: int, q: int, r: int)
    requires x == 2 * h + x % 2 && h == p * q + r
    ensures x == (2 * p) * q + (2 * r + x % 2)
  {
  }

  /** Reversing a word and taking its top k bits. */
  function Turn(v: nat, k: nat): (r: nat)
    requires k <= WIDTH
  {
    TopBits(BitReverse(ToBits(v, WIDTH)), WIDTH - k)
  }

  /** A word shifted right. */
  function TopBits(b: Bits, s: nat): (r: nat) {
    Quotient(Value(b), Pow2(s))
  }

  function Quotient(x: nat, p: nat): (q: nat)
    requires p > 0
  {
    x / p
  }

  /** It depends on the low k bits alone, and mirrors them. */
  lemma TurnIs(v: nat, k: nat)
    requires k <= WIDTH
    ensures Turn(v, k) == Value(Reversed(ToBits(v, k))) < Pow2(k)
  {
    hide BitReverse, Value, ToBits;
    var b := ToBits(v, WIDTH);
    BitReverseReverses(b);
    ValueShift(Reversed(b), WIDTH - k);
    ToBitsTake(v, WIDTH, k);
    assert Reversed(b)[WIDTH - k..] == Reversed(b[..k]);
  }

  lemma TurnInjective(v: nat, w: nat, k: nat)
    requires k <= WIDTH && Turn(v, k) == Turn(w, k)
    ensures v % Pow2(k) == w % Pow2(k)
  {
    hide Value, ToBits, Turn;
    TurnIs(v, k);
    TurnIs(w, k);
    var a, b := ToBits(v, k), ToBits(w, k);
    ToBitsValue(Reversed(a));
    ToBitsValue(Reversed(b));
    assert Reversed(a) == Reversed(b);
    forall i | 0 <= i < k ensures a[i] == b[i] {
      assert Reversed(a)[k - 1 - i] == a[i] && Reversed(b)[k - 1 - i] == b[i];
    }
    assert a == b;
    ValueToBits(v, k);
    ValueToBits(w, k);
  }

  // ----- Odd multiplication -----

  lemma Halve(d: int, m: int, h: int, n: int)
    requires m == 2 * h + 1 && d * m == 2 * n
    ensures d == 2 * (n - d * h) && (n - d * h) * m == n
  {
    var e := n - d * h;
    assert d * m == 2 * (d * h) + d;
    assert d == 2 * e;
    assert (2 * e) * m == 2 * (e * m);
  }

  lemma Product(p: int, q: int, r: int)
    ensures (2 * p) * q == 2 * (p * q) && p * (q + r) == p * q + p * r
  {
  }

  /** A power of two that divides an odd multiple of d divides d. */
  lemma {:induction false} OddDivides(d: int, m: int, k: nat, q: int) returns (r: int)
    requires m % 2 == 1 && d * m == Pow2(k) * q
    ensures d == Pow2(k) * r
    decreases k
  {
    if k == 0 {
      r := d;
    } else {
      var p := Pow2(k - 1);
      Product(p, q, 0);
      Halve(d, m, m / 2, p * q);
      r := OddDivides(p * q - d * (m / 2), m, k - 1, q);
      Product(p, r, 0);
    }
  }

  lemma Difference(a: int, b: int, m: int, p: int, qa: int, qb: int, r: int)
    requires a * m == p * qa + r && b * m == p * qb + r
    ensures (a - b) * m == p * (qa - qb)
  {
  }

  lemma OddCancels(a: nat, b: nat, m: nat, k: nat)
    requires m % 2 == 1 && a * m % Pow2(k) == b * m % Pow2(k)
    ensures a % Pow2(k) == b % Pow2(k)
  {
    hide Pow2;
    var p := Pow2(k);
    var x, y := a * m, b * m;
    Difference(a, b, m, p, x / p, y / p, x % p);
    var r := OddDivides(a - b, m, k, x / p - y / p);
    Product(p, b / p, r);
    DivIs(a, p, b / p + r, b % p);
  }

  lemma {:induction false} Pow2Sum(a: nat, b: nat)
    ensures Pow2(a + b) == Pow2(a) * Pow2(b)
  {
    if a > 0 {
      Pow2Sum(a - 1, b);
      assert Pow2(a) * Pow2(b) == 2 * (Pow2(a - 1) * Pow2(b));
    }
  }

  /** Wrapping at 2^64 does not disturb the low bits. */
  lemma WrapKeepsLow(x: nat, k: nat)
    requires k <= WIDTH
    ensures x % Pow2(WIDTH) % Pow2(k) == x % Pow2(k)
  {
    hide Pow2;
    Pow2Sum(k, WIDTH - k);
    ModMod(x, Pow2(k), Pow2(WIDTH - k));
  }

  lemma ModMod(x: nat, p: nat, t: nat)
    requires p > 0 && t > 0 && p * t > 0
    ensures x % (p * t) % p == x % p
  {
    var w := p * t;
    var q, y := x / w, x % w;
    Nested(x, p, t, q, y, y / p, y % p);
    DivIs(x, p, t * q + y / p, y % p);
  }

  lemma Nested(x: int, p: int, t: int, q: int, y: int, a: int, b: int)
    requires x == (p * t) * q + y && y == p * a + b
    ensures x == p * (t * q + a) + b
  {
  }

  // ----- The permutation -----

  /** Arithmetic on 64-bit words wraps. */
  function Wrap(x: nat): (w: nat) {
    x % Pow2(WIDTH)
  }

  const FACTOR0 := 0x4519840211493211
  const FACTOR1 := 0x3050852102C843A5

  /** x | y on words. */
  function OrWord(x: nat, y: nat): (z: nat) {
    Value(Or(ToBits(x, WIDTH), ToBits(y, WIDTH)))
  }

  lemma OrOdd(x: nat, y: nat)
    requires y % 2 == 1
    ensures OrWord(x, y) % 2 == 1
  {
    hide Pow2;
    assert ToBits(y, WIDTH)[0];
    assert Or(ToBits(x, WIDTH), ToBits(y, WIDTH))[0];
  }

  /** Multiply by a factor modulo 2^64, and turn. */
  function Mix(v: nat, factor: nat, k: nat): (r: nat)
    requires k <= WIDTH
  {
    Turn(Wrap(v * factor), k)
  }

  /** scramble. */
  function Scrambled(v: nat, lgN: nat, val0: nat, val1: nat): (r: nat)
    requires lgN <= WIDTH
  {
    Mix(Mix(Wrap(v + (val0 + val1)), OrWord(val0, FACTOR0), lgN), OrWord(val1, FACTOR1), lgN)
  }

  function Times(a: nat, b: nat): (c: nat) {
    a * b
  }

  /** The low k bits of a number in the opposite order. */
  function Flip(x: nat, k: nat): (r: nat) {
    Value(Reversed(ToBits(x, k)))
  }

  /** Only the low bits of a number matter. */
  lemma SameBits(x: nat, y: nat, k: nat)
    requires x % Pow2(k) == y % Pow2(k)
    ensures ToBits(x, k) == ToBits(y, k)
  {
    hide Value, ToBits, Pow2;
    ValueToBits(x, k);
    ValueToBits(y, k);
    ToBitsValue(ToBits(x, k));
    ToBitsValue(ToBits(y, k));
  }

  /** Numbers that differ by a multiple leave the same remainder. */
  lemma SameRest(x: nat, y: nat, n: nat, t: int)
    requires n > 0 && x == y + n * t
    ensures x % n == y % n
  {
    var q := y / n;
    Product(n, q, t);
    DivIs(x, n, q + t, y % n);
  }

  /** Multiplying before or after the wrap-around is the same. */
  lemma WrapProduct(u: nat, f: nat)
    ensures Wrap(Times(Wrap(u), f)) == Wrap(Times(u, f))
  {
    hide Pow2;
    var w := Pow2(WIDTH);
    var q := u / w;
    assert u == w * q + Wrap(u);
    WrapTerms(w, q, Wrap(u), f);
    SameRest(Times(u, f), Times(Wrap(u), f), w, q * f);
  }

  lemma WrapTerms(w: int, q: int, r: int, f: int)
    ensures (w * q + r) * f == r * f + w * (q * f)
  {
  }

  lemma MixIs(v: nat, factor: nat, k: nat)
    requires k <= WIDTH
    ensures Mix(v, factor, k) == Mix(Wrap(v), factor, k) == Flip(Times(v, factor), k)
  {
    hide Pow2, Turn, Value, ToBits;
    WrapProduct(v, factor);
    TurnIs(Wrap(v * factor), k);
    WrapKeepsLow(v * factor, k);
    SameBits(Wrap(v * factor), v * factor, k);
  }

  /** What scramble computes on 64-bit words is this, on numbers of any size. */
  lemma ScrambleIs(v: nat, lgN: nat, val0: nat, val1: nat)
    requires lgN <= WIDTH
    ensures Scrambled(v, lgN, val0, val1) ==
        Flip(Times(Flip(Times(v + val0 + val1, OrWord(val0, FACTOR0)), lgN), OrWord(val1, FACTOR1)), lgN)
  {
    hide Mix, OrWord, Flip, Wrap;
    MixTwice(v + val0 + val1, OrWord(val0, FACTOR0), OrWord(val1, FACTOR1), lgN);
    assert v + (val0 + val1) == v + val0 + val1;
  }

  lemma MixTwice(u: nat, f0: nat, f1: nat, k: nat)
    requires k <= WIDTH
    ensures Mix(Mix(Wrap(u), f0, k), f1, k) == Flip(Times(Flip(Times(u, f0), k), f1), k)
  {
    hide Mix, Flip, Wrap;
    MixIs(u, f0, k);
    MixIs(Mix(Wrap(u), f0, k), f1, k);
  }

  lemma MixInRange(v: nat, factor: nat, k: nat)
    requires k <= WIDTH
    ensures Mix(v, factor, k) < Pow2(k)
  {
    hide Turn, Pow2;
    TurnIs(Wrap(v * factor), k);
  }

  /** Mixing by an odd factor loses none of the low bits. */
  lemma MixInjective(v: nat, w: nat, factor: nat, k: nat)
    requires k <= WIDTH && factor % 2 == 1 && Mix(v, factor, k) == Mix(w, factor, k)
    ensures v % Pow2(k) == w % Pow2(k)
  {
    hide Turn, Pow2;
    TurnInjective(Wrap(v * factor), Wrap(w * factor), k);
    WrapKeepsLow(v * factor, k);
    WrapKeepsLow(w * factor, k);
    OddCancels(v, w, factor, k);
  }

  lemma SameAfterAdding(v: nat, w: nat, c: nat, p: nat)
    requires v < p && w < p && (v + c) % p == (w + c) % p
    ensures v == w
  {
    var a, b := (v + c) / p, (w + c) / p;
    assert v - w == p * (a - b) by {
      assert v + c == p * a + (v + c) % p && w + c == p * b + (w + c) % p;
      Product(p, a, 0 - b);
    }
    if a - b >= 1 {
      AtLeast(p, a - b);
    } else if a - b <= -1 {
      AtLeast(p, b - a);
    }
  }

  /** scramble stays in range and never maps two vertices to one. */
  lemma ScrambleInjective(v: nat, w: nat, lgN: nat, val0: nat, val1: nat)
    requires lgN <= WIDTH && v < Pow2(lgN) && w < Pow2(lgN)
    ensures Scrambled(v, lgN, val0, val1) < Pow2(lgN)
    ensures Scrambled(v, lgN, val0, val1) == Scrambled(w, lgN, val0, val1) ==> v == w
  {
    hide Pow2, Mix, OrWord, Wrap;
    var c := val0 + val1;
    var f0, f1 := OrWord(val0, FACTOR0), OrWord(val1, FACTOR1);
    OrOdd(val0, FACTOR0);
    OrOdd(val1, FACTOR1);
    var a, b := Mix(Wrap(v + c), f0, lgN), Mix(Wrap(w + c), f0, lgN);
    MixInRange(a, f1, lgN);
    if Mix(a, f1, lgN) == Mix(b, f1, lgN) {
      MixAgain(Wrap(v + c), Wrap(w + c), f0, f1, lgN);
      WrappedSum(v, w, c, lgN);
    }
  }

  lemma MixAgain(v: nat, w: nat, f0: nat, f1: nat, k: nat)
    requires k <= WIDTH && f0 % 2 == 1 && f1 % 2 == 1 && Mix(Mix(v, f0, k), f1, k) == Mix(Mix(w, f0, k), f1, k)
    ensures v % Pow2(k) == w % Pow2(k)
  {
    hide Pow2, Mix;
    var a, b := Mix(v, f0, k), Mix(w, f0, k);
    MixInRange(v, f0, k);
    MixInRange(w, f0, k);
    MixInjective(a, b, f1, k);
    SameAfterAdding(a, b, 0, Pow2(k));
    MixInjective(v, w, f0, k);
  }

  lemma WrappedSum(v: nat, w: nat, c: nat, k: nat)
    requires k <= WIDTH && v < Pow2(k) && w < Pow2(k) && Wrap(v + c) % Pow2(k) == Wrap(w + c) % Pow2(k)
    ensures v == w
  {
    hide Pow2;
    WrapKeepsLow(v + c, k);
    WrapKeepsLow(w + c, k);
    SameAfterAdding(v, w, c, Pow2(k));
  }

  // ----- Injective on a finite range is onto -----

  ghost function Range(n: nat): (s: set<nat>)
    ensures |s| == n && forall i: nat :: i in s <==> i < n
  {
    if n == 0 then {} else Range(n - 1) + {n - 1}
  }

  ghost function Elements(xs: seq<nat>): (s: set<nat>) {
    set x | x in xs
  }

  lemma {:induction false} DistinctSize(xs: seq<nat>)
    requires forall i, j :: 0 <= i < j < |xs| ==> xs[i] != xs[j]
    ensures |Elements(xs)| == |xs|
  {
    if xs != [] {
      var front, x := xs[..|xs| - 1], xs[|xs| - 1];
      DistinctSize(front);
      assert xs == front + [x];
      assert Elements(xs) == Elements(front) + {x};
      assert x !in front;
    }
  }

  lemma SubsetOfSameSize(a: set<nat>, b: set<nat>)
    requires a <= b && |a| == |b|
    ensures a == b
  {
    assert |b - a| == |b| - |a|;
  }

  /** scramble is a permutation of [0, 2^lgN): every vertex number is taken exactly once. */
  lemma ScramblePermutes(y: nat, lgN: nat, val0: nat, val1: nat) returns (v: nat)
    requires lgN <= WIDTH && y < Pow2(lgN)
    ensures v < Pow2(lgN) && Scrambled(v, lgN, val0, val1) == y
    ensures forall w: nat :: w < Pow2(lgN) && Scrambled(w, lgN, val0, val1) == y ==> w == v
  {
    hide Scrambled, Pow2;
    var n := Pow2(lgN);
    var xs := seq(n, x requires 0 <= x < n => Scrambled(x, lgN, val0, val1));
    forall i, j | 0 <= i < j < n ensures xs[i] != xs[j] {
      ScrambleInjective(i, j, lgN, val0, val1);
    }
    DistinctSize(xs);
    forall x | x in Elements(xs) ensures x in Range(n) {
      var i :| 0 <= i < n && xs[i] == x;
      ScrambleInjective(i, i, lgN, val0, val1);
    }
    SubsetOfSameSize(Elements(xs), Range(n));
    assert y in Range(n);
    v :| 0 <= v < n && xs[v] == y;
    forall w: nat | w < Pow2(lgN) && Scrambled(w, lgN, val0, val1) == y ensures w == v {
      ScrambleInjective(v, w, lgN, val0, val1);
    }
  }

  // ----- One edge -----

  /** Binary digits, the most significant first. */
  function Number(ds: seq<nat>): (x: nat) {
    if ds == [] then 0 else 2 * Number(ds[..|ds| - 1]) + ds[|ds| - 1]
  }

  /** The first quadrant off the diagonal. */
  ghost predicate FirstSplit(squares: seq<nat>, i: nat)
    requires i < |squares|
  {
    squares[i] in {1, 2} && forall j :: 0 <= j < i ==> squares[j] !in {1, 2}
  }

  /** The quadrants' row digits; the first one off the diagonal is flipped above it. */
  ghost function SrcDigits(squares: seq<nat>): (ds: seq<nat>)
    ensures |ds| == |squares|
  {
    seq(|squares|, i requires 0 <= i < |squares| => if FirstSplit(squares, i) then 0 else squares[i] / 2)
  }

  ghost function TgtDigits(squares: seq<nat>): (ds: seq<nat>)
    ensures |ds| == |squares|
  {
    seq(|squares|, i requires 0 <= i < |squares| => if FirstSplit(squares, i) then 1 else squares[i] % 2)
  }

  ghost predicate OnDiagonal(squares: seq<nat>, level: nat)
    requires level <= |squares|
  {
    forall j :: 0 <= j < level ==> squares[j] !in {1, 2}
  }

  /** The corner of a square of side n on the diagonal or above it. */
  ghost predicate Placed(s: int, t: int, n: int, total: int) {
    0 <= s <= t && t + n <= total && (s < t ==> s + n <= t)
  }

  lemma Pow2Halves(k: nat)
    requires Pow2(k) > 1
    ensures k > 0 && Pow2(k) % 2 == 0 && Pow2(k) / 2 == Pow2(k - 1)
  {
  }

  lemma HalfStep(s: int, t: int, n: int, total: int, so: int, to: int)
    requires Placed(s, t, n, total) && n % 2 == 0 && n > 0 && 0 <= so <= 1 && 0 <= to <= 1 && (s == t ==> so <= to)
    ensures Placed(s + n / 2 * so, t + n / 2 * to, n / 2, total)
  {
    assert n / 2 * so == (if so == 0 then 0 else n / 2) && n / 2 * to == (if to == 0 then 0 else n / 2);
  }

  lemma NumberNext(ds: seq<nat>, level: nat, n: nat)
    requires level < |ds| && n % 2 == 0
    ensures Number(ds[..level + 1]) * (n / 2) == Number(ds[..level]) * n + n / 2 * ds[level]
  {
    assert ds[..level + 1][..level] == ds[..level];
    Halved(Number(ds[..level]), ds[level], n / 2);
  }

  lemma Halved(x: int, d: int, h: int)
    ensures (2 * x + d) * h == x * (2 * h) + h * d
  {
  }

  /** Both digits of a level, as the loop picks them. */
  lemma DigitsAt(squares: seq<nat>, level: nat)
    requires level < |squares| && squares[level] < 4
    ensures var so, to := squares[level] / 2, squares[level] % 2; var flip := OnDiagonal(squares, level) && so > to;
      && SrcDigits(squares)[level] == (if flip then to else so) && TgtDigits(squares)[level] == (if flip then so else to)
      && (OnDiagonal(squares, level + 1) <==> OnDiagonal(squares, level) && so == to)
  {
    assert FirstSplit(squares, level) <==> squares[level] in {1, 2} && OnDiagonal(squares, level);
  }

  lemma Separates(s: int, t: int, n: int, so: int, to: int)
    requires s <= t && (s < t ==> s + n <= t) && n % 2 == 0 && n > 0 && 0 <= so <= 1 && 0 <= to <= 1
    ensures s + n / 2 * so == t + n / 2 * to <==> s == t && so == to
  {
    assert n / 2 * so == (if so == 0 then 0 else n / 2) && n / 2 * to == (if to == 0 then 0 else n / 2);
  }

  /** make_one_edge: the quadrants come from the generator; they spell both ends, which stay in order and in range. */
  method MakeOneEdge(lgN: nat, squares: seq<nat>, val0: nat, val1: nat) returns (src: nat, tgt: nat)
    requires lgN <= WIDTH && |squares| == lgN && forall i :: 0 <= i < |squares| ==> squares[i] < 4
    ensures var s, t := Number(SrcDigits(squares)), Number(TgtDigits(squares));
      && s <= t < Pow2(lgN) && (s == t <==> OnDiagonal(squares, lgN))
      && src == Scrambled(s, lgN, val0, val1) && tgt == Scrambled(t, lgN, val0, val1)
    ensures src < Pow2(lgN) && tgt < Pow2(lgN) && (src == tgt <==> OnDiagonal(squares, lgN))
  {
    hide Scrambled, Pow2, Number, SrcDigits, TgtDigits, OnDiagonal;
    var nverts, level, s, t := Pow2(lgN), 0, 0, 0;
    EdgeStart(squares, lgN);
    while nverts > 1
      invariant 0 <= level <= lgN && nverts == Pow2(lgN - level)
      invariant Placed(s, t, nverts, Pow2(lgN)) && (s == t <==> OnDiagonal(squares, level))
      invariant s == Number(SrcDigits(squares)[..level]) * nverts && t == Number(TgtDigits(squares)[..level]) * nverts
      decreases nverts
    {
      Pow2Halves(lgN - level);
      DigitsAt(squares, level);
      var square := squares[level];
      var so, to := square / 2, square % 2;
      if s == t && so > to {
        so, to := to, so;
      }
      HalfStep(s, t, nverts, Pow2(lgN), so, to);
      Separates(s, t, nverts, so, to);
      NumberNext(SrcDigits(squares), level, nverts);
      NumberNext(TgtDigits(squares), level, nverts);
      nverts := nverts / 2;
      level := level + 1;
      s := s + nverts * so;
      t := t + nverts * to;
    }
    EdgeEnd(squares, lgN, level);
    ScrambleInjective(s, t, lgN, val0, val1);
    ScrambleInjective(t, s, lgN, val0, val1);
    src, tgt := Scrambled(s, lgN, val0, val1), Scrambled(t, lgN, val0, val1);
  }

  lemma EdgeStart(squares: seq<nat>, lgN: nat)
    ensures OnDiagonal(squares, 0) && Number(SrcDigits(squares)[..0]) * Pow2(lgN) == 0 &&
        Number(TgtDigits(squares)[..0]) * Pow2(lgN) == 0
  {
  }

  lemma EdgeEnd(squares: seq<nat>, lgN: nat, level: nat)
    requires level <= lgN == |squares| && Pow2(lgN - level) <= 1
    ensures level == lgN && Pow2(lgN - level) == 1
    ensures SrcDigits(squares)[..level] == SrcDigits(squares) && TgtDigits(squares)[..level] == TgtDigits(squares)
  {
  }
}
