/**
  BITFIELD: integers of any width at any bit offset, the overflow checks in 64-bit
  arithmetic, and the three ways to treat an overflow. A string is an array of bytes that
  SET and INCRBY change in place; what they mean is said of its bits.
*/
module Bitfield {
  import P = Popcount
  import S = Scramble

  type Bits = seq<bool>

  function Two(n: nat): (p: nat)
    ensures p > 0
  {
    S.Pow2(n)
  }

  // ----- Reading and writing -----

  function Digit(b: bool): (d: nat)
    ensures d <= 1
  {
    if b then 1 else 0
  }

  /** The number that n bits from an offset denote, the most significant first. */
  function Unsigned(p: Bits, offset: nat, n: nat): (v: nat)
    requires offset + n <= |p|
    ensures v < Two(n)
  {
    if n == 0 then 0 else 2 * Unsigned(p, offset, n - 1) + Digit(p[offset + n - 1])
  }

  /** The bits of a string of bytes, the most significant of each byte first. */
  ghost function BitsOf(p: seq<bv8>): (b: Bits)
    ensures |b| == 8 * |p| && forall q :: 0 <= q < 8 * |p| ==> b[q] == (P.BitAt(p, q) == 1)
  {
    seq(8 * |p|, q requires 0 <= q < 8 * |p| => P.BitAt(p, q) == 1)
  }

  lemma BitIsDigit(p: seq<bv8>, q: nat)
    requires q < 8 * |p|
    ensures P.BitAt(p, q) == Digit(BitsOf(p)[q])
  {
  }

  /** getUnsignedBitfield. */
  method GetUnsigned(p: array<bv8>, offset: nat, n: nat) returns (value: nat)
    requires offset + n <= 8 * p.Length
    ensures value == Unsigned(BitsOf(p[..]), offset, n)
  {
    hide P.BitOf, BitsOf;
    value := 0;
    for j := 0 to n
      invariant value == Unsigned(BitsOf(p[..]), offset, j)
    {
      BitIsDigit(p[..], offset + j);
      value := 2 * value + P.BitOf(p[(offset + j) / 8], (offset + j) % 8);
    }
  }

  /** 1 << (7 - i): the bit at position i of a byte. */
  function BitMask(i: nat): (m: bv8)
    requires i < 8
  {
    match i
    case 0 => 0x80
    case 1 => 0x40
    case 2 => 0x20
    case 3 => 0x10
    case 4 => 0x08
    case 5 => 0x04
    case 6 => 0x02
    case 7 => 0x01
  }

  /** A byte with the bits of a mask cleared, and set again if asked for. */
  function Merge(b: bv8, m: bv8, v: bool): (r: bv8) {
    (b & !m) | (if v then m else 0)
  }

  lemma MergeBit(b: bv8, m: bv8, v: bool, k: nat)
    requires k < 8
    ensures P.BitOf(Merge(b, m, v), k) == if P.BitOf(m, k) == 1 then Digit(v) else P.BitOf(b, k)
  {
    hide P.BitOf, Merge;
    if k < 4 {
      MergeBitHigh(b, m, v, k);
    } else {
      MergeBitLow(b, m, v, k);
    }
  }

  lemma MergeBitHigh(b: bv8, m: bv8, v: bool, k: nat)
    requires k < 4
    ensures P.BitOf(Merge(b, m, v), k) == if P.BitOf(m, k) == 1 then Digit(v) else P.BitOf(b, k)
  {
  }

  lemma MergeBitLow(b: bv8, m: bv8, v: bool, k: nat)
    requires 4 <= k < 8
    ensures P.BitOf(Merge(b, m, v), k) == if P.BitOf(m, k) == 1 then Digit(v) else P.BitOf(b, k)
  {
  }

  lemma MaskBit(i: nat)
    requires i < 8
    ensures P.Covers(BitMask(i), i, i + 1)
  {
  }

  lemma MergeIs(b: bv8, i: nat, v: bool)
    requires i < 8
    ensures var r := Merge(b, BitMask(i), v); forall k :: 0 <= k < 8 ==>
        P.BitOf(r, k) == if k == i then Digit(v) else P.BitOf(b, k)
  {
    hide P.BitOf, Merge, BitMask;
    MaskBit(i);
    forall k | 0 <= k < 8 ensures P.BitOf(Merge(b, BitMask(i), v), k) == if k == i then Digit(v) else P.BitOf(b, k) {
      MergeBit(b, BitMask(i), v, k);
    }
  }

  /** Replacing one bit of one byte replaces one bit of the string. */
  method PutBit(p: array<bv8>, q: nat, v: bool)
    requires q < 8 * p.Length
    modifies p
    ensures BitsOf(p[..]) == BitsOf(old(p[..]))[q := v]
  {
    hide P.BitOf, Merge, BitMask, BitsOf;
    MergeIs(p[q / 8], q % 8, v);
    p[q / 8] := Merge(p[q / 8], BitMask(q % 8), v);
    forall x | 0 <= x < 8 * p.Length
      ensures P.BitAt(p[..], x) == if x == q then Digit(v) else P.BitAt(old(p[..]), x)
    {
      assert x == q <==> x / 8 == q / 8 && x % 8 == q % 8;
    }
  }

  ghost predicate Elsewhere(p: Bits, p': Bits, offset: nat, n: nat) {
    |p| == |p'| && forall q :: 0 <= q < |p| && !(offset <= q < offset + n) ==> p'[q] == p[q]
  }

  /** The top j bits of an n-bit number. */
  function Top(value: nat, n: nat, j: nat): (v: nat)
    requires j <= n
  {
    value / Two(n - j) % Two(j)
  }

  lemma TopNext(value: nat, n: nat, j: nat)
    requires j < n
    ensures Top(value, n, j + 1) == 2 * Top(value, n, j) + value / Two(n - 1 - j) % 2
  {
    var p := Two(n - 1 - j);
    DivHalf(value, p);
    S.ModTwice(value / p, Two(j));
  }

  lemma DivHalf(x: nat, p: nat)
    requires p > 0
    ensures x / (2 * p) == x / p / 2
  {
    var q, r := x / p, x % p;
    Halves(x, p, q, r);
    assert p * (q % 2) + r < 2 * p by {
      if q % 2 == 1 {
        assert p * (q % 2) == p;
      } else {
        assert p * (q % 2) == 0;
      }
    }
    assert p * (q % 2) >= 0;
    S.DivIs(x, 2 * p, q / 2, p * (q % 2) + r);
  }

  lemma Halves(x: int, p: int, q: int, r: int)
    requires x == p * q + r
    ensures x == (2 * p) * (q / 2) + (p * (q % 2) + r)
  {
    assert q == 2 * (q / 2) + q % 2;
    Split(p, q / 2, q % 2);
  }

  lemma Split(p: int, h: int, t: int)
    ensures p * (2 * h + t) == (2 * p) * h + p * t
  {
  }

  lemma {:induction false} UnsignedSame(p: Bits, p': Bits, offset: nat, n: nat)
    requires |p| == |p'| && offset + n <= |p| && forall q :: offset <= q < offset + n ==> p'[q] == p[q]
    ensures Unsigned(p', offset, n) == Unsigned(p, offset, n)
  {
    if n > 0 {
      UnsignedSame(p, p', offset, n - 1);
    }
  }

  /** setUnsignedBitfield: only the low n bits of the value are stored. */
  method SetUnsigned(p: array<bv8>, offset: nat, n: nat, value: nat)
    requires offset + n <= 8 * p.Length
    modifies p
    ensures Elsewhere(BitsOf(old(p[..])), BitsOf(p[..]), offset, n)
    ensures Unsigned(BitsOf(p[..]), offset, n) == value % Two(n)
  {
    hide BitsOf, P.BitAt;
    for j := 0 to n
      invariant Elsewhere(BitsOf(old(p[..])), BitsOf(p[..]), offset, n)
      invariant Unsigned(BitsOf(p[..]), offset, j) == Top(value, n, j)
    {
      TopNext(value, n, j);
      ghost var before := BitsOf(p[..]);
      PutBit(p, offset + j, value / Two(n - 1 - j) % 2 == 1);
      UnsignedSame(before, BitsOf(p[..]), offset, j);
    }
    assert value / Two(0) == value;
  }

  // ----- 64-bit arithmetic -----

  function ToUint64(x: int): (r: nat)
    ensures r < Two(64)
  {
    x % Two(64)
  }

  function ToInt64(x: int): (r: int) {
    var u := x % Two(64);
    if u >= Two(63) then u - Two(64) else u
  }

  predicate IsInt64(x: int) {
    0 - Two(63) <= x < Two(63)
  }

  lemma WidthTwice(n: nat)
    requires n > 0
    ensures Two(n) == 2 * Two(n - 1)
  {
  }

  lemma {:induction false} TwoGrows(m: nat, n: nat)
    requires m <= n
    ensures Two(m) <= Two(n)
  {
    if m < n {
      TwoGrows(m, n - 1);
    }
  }

  /** Conversions change nothing that fits. */
  lemma Int64Fits(x: int)
    requires IsInt64(x)
    ensures ToInt64(x) == x
  {
    hide Two;
    WidthTwice(64);
    if x >= 0 {
      S.DivIs(x, Two(64), 0, x);
    } else {
      S.DivIs(x, Two(64), -1, x + Two(64));
    }
  }

  // ----- Overflow of unsigned integers -----

  datatype Overflow = Wrap | Sat | Fail

  function MaxUnsigned(n: nat): (m: nat) {
    Two(n) - 1
  }

  /** checkUnsignedBitfieldOverflow: its result, and the limit if it is set. */
  function CheckUnsigned(value: nat, incr: int, n: nat, ow: Overflow): (r: (int, nat)) {
    var max := MaxUnsigned(n);
    var maxincr, minincr := ToInt64(max - value), ToInt64(0 - value);
    var wrapped := ToUint64(value + incr) % Two(n);
    if value > max || (incr > 0 && incr > maxincr) then
      (1, if ow == Wrap then wrapped else if ow == Sat then max else 0)
    else if incr < 0 && incr < minincr then
      (if ow == Wrap then 1 else -1, if ow == Wrap then wrapped else 0)
    else (0, 0)
  }

  ghost predicate FitsUnsigned(x: int, n: nat) {
    0 <= x <= MaxUnsigned(n)
  }

  /** The nearest number that fits. */
  function Clamp(x: int, min: int, max: int): (y: int) {
    if x < min then min else if x > max then max else x
  }

  /** x and y differ by a multiple of 2^n. */
  ghost predicate Congruent(x: int, y: int, n: nat) {
    exists k: int :: x == y + Two(n) * k
  }

  /** The check of an increment is nonzero exactly when the sum does not fit, and then the limit is the right one. */
  lemma CheckUnsignedIs(value: nat, incr: int, n: nat, ow: Overflow)
    requires 1 <= n <= 63 && value <= MaxUnsigned(n) && IsInt64(incr)
    ensures var (r, limit) := CheckUnsigned(value, incr, n, ow);
      && (r != 0 <==> !FitsUnsigned(value + incr, n))
      && (r != 0 && ow == Wrap ==> limit < Two(n) && Congruent(limit, value + incr, n))
      && (r != 0 && ow == Sat ==> limit == Clamp(value + incr, 0, MaxUnsigned(n)))
  {
    hide Two;
    TwoGrows(n, 63);
    Int64Fits(MaxUnsigned(n) - value);
    Int64Fits(0 - value);
    WrapCongruent(value + incr, n);
  }

  lemma WrapCongruent(x: int, n: nat)
    requires n <= 64
    ensures ToUint64(x) % Two(n) < Two(n) && Congruent(ToUint64(x) % Two(n), x, n)
  {
    hide Two;
    var w, p, t := Two(64), Two(n), Two(64 - n);
    assert w == p * t by { S.Pow2Sum(n, 64 - n); TwoIs(n); TwoIs(64); TwoIs(64 - n); }
    var u := x % w;
    var q, r := x / w, u % p;
    Reassemble(x, p, t, q, u, u / p, r);
    assert r == x + p * (-(t * q) - u / p);
  }

  lemma TwoIs(n: nat)
    ensures Two(n) == S.Pow2(n)
  {
  }

  lemma Reassemble(x: int, p: int, t: int, q: int, u: int, a: int, r: int)
    requires x == (p * t) * q + u && u == p * a + r
    ensures r == x + p * (-(t * q) - a)
  {
    Distribute(p, t, q, a);
  }

  lemma Distribute(p: int, t: int, q: int, a: int)
    ensures p * (-(t * q) - a) == -((p * t) * q) - p * a
  {
  }

  // ----- Overflow of signed integers -----

  function MaxSigned(n: nat): (m: int)
    requires n > 0
  {
    Two(n - 1) - 1
  }

  function MinSigned(n: nat): (m: int)
    requires n > 0
  {
    0 - Two(n - 1)
  }

  ghost predicate FitsSigned(x: int, n: nat)
    requires n > 0
  {
    MinSigned(n) <= x <= MaxSigned(n)
  }

  /** n bits in two's complement: a set top bit is propagated. */
  function Extend(u: nat, n: nat): (v: int)
    requires n > 0
  {
    if u >= Two(n - 1) then u - Two(n) else u
  }

  lemma ExtendFits(u: nat, n: nat)
    requires n > 0 && u < Two(n)
    ensures FitsSigned(Extend(u, n), n) && Congruent(Extend(u, n), u, n)
  {
    hide Two;
    WidthTwice(n);
    if u >= Two(n - 1) {
      assert Extend(u, n) == u + Two(n) * (0 - 1);
    } else {
      assert Extend(u, n) == u + Two(n) * 0;
    }
  }

  /** checkSignedBitfieldOverflow: its result, and the limit if it is set. */
  function CheckSigned(value: int, incr: int, n: nat, ow: Overflow): (r: (int, int))
    requires n > 0
  {
    var max, min := MaxSigned(n), MinSigned(n);
    var maxincr, minincr := ToInt64(max - value), ToInt64(min - value);
    var wrapped := Extend(ToUint64(value + incr) % Two(n), n);
    if value > max || (n != 64 && incr > maxincr) || (value >= 0 && incr > 0 && incr > maxincr) then
      (1, if ow == Wrap then wrapped else if ow == Sat then max else 0)
    else if value < min || (n != 64 && incr < minincr) || (value < 0 && incr < 0 && incr < minincr) then
      (if ow == Wrap then 1 else -1, if ow == Wrap then wrapped else if ow == Sat then min else 0)
    else (0, 0)
  }

  lemma SmallWidths(n: nat)
    requires 1 <= n <= 63
    ensures Two(n - 1) + Two(n - 1) <= Two(63)
  {
    WidthTwice(n);
    TwoGrows(n, 63);
  }

  lemma CheckSignedIs(value: int, incr: int, n: nat, ow: Overflow)
    requires 1 <= n <= 64 && FitsSigned(value, n) && IsInt64(incr)
    ensures var (r, limit) := CheckSigned(value, incr, n, ow);
      && (r != 0 <==> !FitsSigned(value + incr, n))
      && (r != 0 && ow == Wrap ==> FitsSigned(limit, n) && Congruent(limit, value + incr, n))
      && (r != 0 && ow == Sat ==> limit == Clamp(value + incr, MinSigned(n), MaxSigned(n)))
  {
    hide Two, Extend, Congruent, ToInt64, ToUint64;
    SignedWrap(value + incr, n);
    if n < 64 {
      SmallWidths(n);
      Int64Fits(MaxSigned(n) - value);
      Int64Fits(MinSigned(n) - value);
    } else if value >= 0 {
      Int64Fits(MaxSigned(n) - value);
    } else {
      Int64Fits(MinSigned(n) - value);
    }
  }

  lemma SignedWrap(x: int, n: nat)
    requires 1 <= n <= 64
    ensures var w := Extend(ToUint64(x) % Two(n), n); FitsSigned(w, n) && Congruent(w, x, n)
  {
    hide Two, Extend, ToUint64, FitsSigned;
    WrapCongruent(x, n);
    var u := ToUint64(x) % Two(n);
    ExtendFits(u, n);
    CongruentTwice(Extend(u, n), u, x, n);
  }

  lemma CongruentTwice(x: int, y: int, z: int, n: nat)
    requires Congruent(x, y, n) && Congruent(y, z, n)
    ensures Congruent(x, z, n)
  {
    hide Two;
    var a :| x == y + Two(n) * a;
    var b :| y == z + Two(n) * b;
    Factor(Two(n), a, b);
    assert x == z + Two(n) * (a + b);
  }

  lemma Factor(p: int, a: int, b: int)
    ensures p * (a + b) == p * a + p * b
  {
  }

  // ----- SET -----

  /**
    The check of a value to be set, with no increment. It tells whether the value fits;
    but for values so low that max - value leaves 64 bits it reports an overflow upwards,
    so that saturation stores the maximum. It is right exactly above that point.
  */
  lemma CheckSignedSetIs(value: int, n: nat, ow: Overflow)
    requires 1 <= n <= 64 && IsInt64(value)
    ensures var (r, limit) := CheckSigned(value, 0, n, ow);
      && (r != 0 <==> !FitsSigned(value, n))
      && (r != 0 && ow == Wrap ==> FitsSigned(limit, n) && Congruent(limit, value, n))
      && (r != 0 && ow == Sat ==> limit == if TooLow(value, n) then MaxSigned(n) else Clamp(value, MinSigned(n), MaxSigned(n)))
  {
    hide Two, Extend, Congruent, ToInt64, ToUint64;
    SignedWrap(value + 0, n);
    if n < 64 && value < MinSigned(n) {
      SmallWidths(n);
      WidthTwice(64);
      if TooLow(value, n) {
        FarBelow(MaxSigned(n) - value);
      } else {
        Int64Fits(MaxSigned(n) - value);
        Int64Fits(MinSigned(n) - value);
      }
    } else if n < 64 && value <= MaxSigned(n) {
      SmallWidths(n);
      Int64Fits(MaxSigned(n) - value);
      Int64Fits(MinSigned(n) - value);
    }
  }

  ghost predicate TooLow(value: int, n: nat)
    requires n > 0
  {
    n < 64 && MaxSigned(n) - value >= Two(63)
  }

  /** A difference just past 64 bits turns negative. */
  lemma FarBelow(x: int)
    requires Two(63) <= x < Two(64)
    ensures ToInt64(x) < 0
  {
    hide Two;
    S.DivIs(x, Two(64), 0, x);
  }

  /** For instance, the lowest 64-bit number set as an i8 with saturation becomes 127. */
  lemma LowestSaturatesUpwards()
    ensures CheckSigned(0 - Two(63), 0, 8, Sat).1 == MaxSigned(8) != Clamp(0 - Two(63), MinSigned(8), MaxSigned(8))
  {
    hide Two;
    TwoGrows(7, 63);
    WidthTwice(8);
    SmallWidths(8);
    CheckSignedSetIs(0 - Two(63), 8, Sat);
    TwoPositive();
  }

  lemma TwoPositive()
    ensures Two(7) >= 1 && Two(8) <= Two(63) && Two(8) == 2 * Two(7)
  {
    TwoGrows(8, 63);
  }

  // ----- The operations -----

  datatype Opcode = Get | Set | IncrBy

  datatype Op = Op(code: Opcode, signed: bool, offset: nat, bits: nat, i64: int, ow: Overflow)

  datatype Reply = Number(v: int) | Null

  /** What the parser lets through; writing operations find the string long enough. */
  ghost predicate Legal(op: Op, size: nat) {
    && 1 <= op.bits <= (if op.signed then 64 else 63) && IsInt64(op.i64)
    && (op.code != Get ==> op.offset + op.bits <= size)
  }

  /** The number at an operation's place. */
  ghost function Read(b: Bits, op: Op): (v: int)
    requires op.bits > 0 && op.offset + op.bits <= |b|
  {
    var u := Unsigned(b, op.offset, op.bits);
    if op.signed then Extend(u, op.bits) else u
  }

  function Lowest(op: Op): (x: int)
    requires op.bits > 0
  {
    if op.signed then MinSigned(op.bits) else 0
  }

  function Highest(op: Op): (x: int)
    requires op.bits > 0
  {
    if op.signed then MaxSigned(op.bits) else MaxUnsigned(op.bits)
  }

  lemma ReadFits(b: Bits, op: Op)
    requires 1 <= op.bits <= 64 && op.offset + op.bits <= |b|
    ensures Lowest(op) <= Read(b, op) <= Highest(op)
  {
    if op.signed {
      ExtendFits(Unsigned(b, op.offset, op.bits), op.bits);
    }
  }

  /** getSignedBitfield or getUnsignedBitfield. */
  method GetField(p: array<bv8>, op: Op) returns (v: int)
    requires op.bits > 0 && op.offset + op.bits <= 8 * p.Length
    ensures v == Read(BitsOf(p[..]), op)
  {
    hide BitsOf, Unsigned, Extend;
    v := GetUnsigned(p, op.offset, op.bits);
    if op.signed {
      v := Extend(v, op.bits);
    }
  }

  /** setSignedBitfield or setUnsignedBitfield, of a number that fits. */
  method SetField(p: array<bv8>, op: Op, value: int)
    requires Legal(op, 8 * p.Length) && op.code != Get && Lowest(op) <= value <= Highest(op)
    modifies p
    ensures Elsewhere(BitsOf(old(p[..])), BitsOf(p[..]), op.offset, op.bits) && Read(BitsOf(p[..]), op) == value
  {
    hide Two, Unsigned, BitsOf;
    SetUnsigned(p, op.offset, op.bits, ToUint64(value));
    StoredBack(value, op);
  }

  /** The low bits of a number that fits denote it. */
  lemma StoredBack(value: int, op: Op)
    requires 1 <= op.bits <= 64 && Lowest(op) <= value <= Highest(op)
    ensures var u := ToUint64(value) % Two(op.bits); value == if op.signed then Extend(u, op.bits) else u
  {
    hide Two;
    WrapCongruent(value, op.bits);
    WidthTwice(op.bits);
    var u := ToUint64(value) % Two(op.bits);
    var k :| u == value + Two(op.bits) * k;
    OneOf(value, u, Two(op.bits), k, op.signed);
  }

  lemma OneOf(value: int, u: int, p: int, k: int, signed: bool)
    requires p > 0 && 0 <= u < p && u == value + p * k
    requires if signed then 0 - p <= 2 * value < p else 0 <= value < p
    ensures k == 0 || (k == 1 && signed)
    ensures k == 0 ==> u == value
    ensures k == 1 ==> u == value + p
  {
    if k >= 2 {
      S.AtLeast(p, k - 1);
      Factor(p, k - 1, 1);
    } else if k <= -1 {
      S.AtLeast(p, -k);
    } else if k == 1 {
    }
  }

  /** The number that an operation wants to store, given the one it finds. */
  function Wanted(oldval: int, op: Op): (x: int) {
    if op.code == IncrBy then oldval + op.i64 else if op.signed then op.i64 else ToUint64(op.i64)
  }

  /** What saturation makes of a number that does not fit. */
  function Saturated(op: Op, x: int): (y: int)
    requires op.bits > 0
  {
    if op.code == Set && op.signed && MaxSigned(op.bits) - x >= Two(63) && op.bits < 64 then MaxSigned(op.bits)
    else Clamp(x, Lowest(op), Highest(op))
  }

  /** The overflow check of an operation: does its number fit, and what replaces it. */
  method Check(oldval: int, op: Op) returns (overflow: bool, newval: int)
    requires Legal(op, op.offset + op.bits) && op.code != Get && Lowest(op) <= oldval <= Highest(op)
    ensures overflow <==> !(Lowest(op) <= Wanted(oldval, op) <= Highest(op))
    ensures !overflow ==> newval == Wanted(oldval, op)
    ensures overflow && op.ow == Wrap ==> Lowest(op) <= newval <= Highest(op) && Congruent(newval, Wanted(oldval, op), op.bits)
    ensures overflow && op.ow == Sat ==> newval == Saturated(op, Wanted(oldval, op))
  {
    hide Two, Congruent, CheckSigned, CheckUnsigned, ToUint64;
    var isSet := op.code == Set;
    if op.signed {
      var r;
      if isSet {
        CheckSignedSetIs(op.i64, op.bits, op.ow);
        r := CheckSigned(op.i64, 0, op.bits, op.ow);
      } else {
        CheckSignedIs(oldval, op.i64, op.bits, op.ow);
        r := CheckSigned(oldval, op.i64, op.bits, op.ow);
      }
      overflow := r.0 != 0;
      newval := if overflow then r.1 else if isSet then op.i64 else oldval + op.i64;
    } else {
      var r;
      if isSet {
        CheckUnsignedSetIs(ToUint64(op.i64), op.bits, op.ow);
        r := CheckUnsigned(ToUint64(op.i64), 0, op.bits, op.ow);
      } else {
        CheckUnsignedIs(oldval, op.i64, op.bits, op.ow);
        r := CheckUnsigned(oldval, op.i64, op.bits, op.ow);
      }
      overflow := r.0 != 0;
      newval := if overflow then r.1 else if isSet then ToUint64(op.i64) else oldval + op.i64;
    }
  }

  lemma CheckUnsignedSetIs(value: nat, n: nat, ow: Overflow)
    requires 1 <= n <= 63
    ensures var (r, limit) := CheckUnsigned(value, 0, n, ow);
      && (r != 0 <==> !FitsUnsigned(value, n))
      && (r != 0 && ow == Wrap ==> limit < Two(n) && Congruent(limit, value, n))
      && (r != 0 && ow == Sat ==> limit == Clamp(value, 0, MaxUnsigned(n)))
  {
    hide Two;
    WrapCongruent(value + 0, n);
  }

  /** What a SET or an INCRBY does to the bits of the string, and what it answers. */
  ghost predicate Stored(b: Bits, b': Bits, op: Op, reply: Reply)
    requires op.bits > 0 && op.offset + op.bits <= |b|
  {
    && Elsewhere(b, b', op.offset, op.bits)
    && var x := Wanted(Read(b, op), op);
      var fits := Lowest(op) <= x <= Highest(op);
      && (fits ==> Read(b', op) == x)
      && (!fits && op.ow == Wrap ==> Congruent(Read(b', op), x, op.bits))
      && (!fits && op.ow == Sat ==> Read(b', op) == Saturated(op, x))
      && (!fits && op.ow == Fail ==> b' == b)
      && reply == if !fits && op.ow == Fail then Null else Number(if op.code == Set then Read(b, op) else Read(b', op))
  }

  /** One SET or INCRBY of bitfieldGeneric. */
  method Store(p: array<bv8>, op: Op) returns (reply: Reply)
    requires Legal(op, 8 * p.Length) && op.code != Get
    modifies p
    ensures Stored(BitsOf(old(p[..])), BitsOf(p[..]), op, reply)
  {
    hide Two, Congruent, Unsigned, ToUint64, Extend, Wanted, Read, BitsOf;
    var oldval := GetField(p, op);
    ReadFits(BitsOf(p[..]), op);
    var overflow, newval := Check(oldval, op);
    if overflow && op.ow == Fail {
      return Null;
    }
    SaturatedFits(op, Wanted(oldval, op));
    SetField(p, op, newval);
    reply := Number(if op.code == Set then oldval else newval);
  }

  lemma SaturatedFits(op: Op, x: int)
    requires 1 <= op.bits
    ensures Lowest(op) <= Saturated(op, x) <= Highest(op)
  {
    hide Two;
  }

  // ----- Reading past the end -----

  /** The bits of a string, with zeros up to a length. */
  ghost function Padded(b: Bits, size: nat): (r: Bits)
    ensures |r| >= size && |r| >= |b|
  {
    b + if size <= |b| then [] else seq(size - |b|, i => false)
  }

  ghost function Nth(b: Bits, offset: nat, k: nat): (v: bool)
    requires offset + k < |b|
  {
    b[offset + k]
  }

  lemma {:induction false} UnsignedMoved(a: Bits, i: nat, b: Bits, j: nat, n: nat)
    requires i + n <= |a| && j + n <= |b| && forall k :: 0 <= k < n ==> Nth(a, i, k) == Nth(b, j, k)
    ensures Unsigned(a, i, n) == Unsigned(b, j, n)
  {
    if n > 0 {
      UnsignedMoved(a, i, b, j, n - 1);
      assert Nth(a, i, n - 1) == Nth(b, j, n - 1);
    }
  }

  lemma ZeroByte(i: nat)
    requires i < 8
    ensures P.BitOf(0, i) == 0
  {
  }

  /** Nine bytes copied from a place hold its bits, and zeros past the end of the string. */
  lemma CopiedBit(s: seq<bv8>, buf: seq<bv8>, byte: nat, q: nat, size: nat)
    requires |buf| == 9 && forall k :: 0 <= k < 9 ==> buf[k] == if byte + k < |s| then s[byte + k] else 0
    requires q < 72 && 8 * byte + q < size
    ensures BitsOf(buf)[q] == Padded(BitsOf(s), size)[8 * byte + q]
  {
    hide P.BitOf, BitsOf;
    var x := 8 * byte + q;
    assert x / 8 == byte + q / 8 && x % 8 == q % 8;
    ZeroByte(q % 8);
  }

  /** GET: reads through a copy of nine bytes. */
  method Fetch(p: array<bv8>, op: Op) returns (v: int)
    requires 1 <= op.bits <= 64
    ensures v == Read(Padded(BitsOf(p[..]), op.offset + op.bits), op)
  {
    hide BitsOf, Padded, Unsigned, Extend;
    var buf := new bv8[9](_ => 0);
    var byte := op.offset / 8;
    var i := 0;
    while i < 9 && i + byte < p.Length
      invariant 0 <= i <= 9 && (i > 0 ==> i + byte <= p.Length)
      invariant forall k :: 0 <= k < 9 ==> buf[k] == if k < i then p[byte + k] else 0
    {
      buf[i] := p[i + byte];
      i := i + 1;
    }
    var near := op.(offset := op.offset - 8 * byte);
    v := GetField(buf, near);
    ghost var whole := Padded(BitsOf(p[..]), op.offset + op.bits);
    forall k | 0 <= k < op.bits ensures Nth(BitsOf(buf[..]), near.offset, k) == Nth(whole, op.offset, k) {
      CopiedBit(p[..], buf[..], byte, near.offset + k, op.offset + op.bits);
    }
    UnsignedMoved(BitsOf(buf[..]), near.offset, whole, op.offset, op.bits);
  }

  // ----- The command -----

  ghost predicate Stepped(b: Bits, b': Bits, op: Op, reply: Reply)
    requires Legal(op, |b|)
  {
    if op.code == Get then b' == b && reply == Number(Read(Padded(b, op.offset + op.bits), op)) else Stored(b, b', op, reply)
  }

  /** The operations of one command, each on what the ones before it left. */
  method Run(p: array<bv8>, ops: seq<Op>) returns (replies: seq<Reply>, ghost states: seq<Bits>)
    requires forall i :: 0 <= i < |ops| ==> Legal(ops[i], 8 * p.Length)
    modifies p
    ensures |replies| == |ops| && |states| == |ops| + 1 && states[0] == BitsOf(old(p[..])) && states[|ops|] == BitsOf(p[..])
    ensures forall i :: 0 <= i < |ops| ==> |states[i]| == 8 * p.Length && Stepped(states[i], states[i + 1], ops[i], replies[i])
  {
    hide BitsOf, Stored, Read, Padded, Legal;
    replies, states := [], [BitsOf(p[..])];
    for j := 0 to |ops|
      invariant |replies| == j && |states| == j + 1 && states[0] == BitsOf(old(p[..])) && states[j] == BitsOf(p[..])
      invariant forall i :: 0 <= i < j ==> |states[i]| == 8 * p.Length && Stepped(states[i], states[i + 1], ops[i], replies[i])
    {
      var reply;
      if ops[j].code == Get {
        LegalWidth(ops[j], 8 * p.Length);
        var v := Fetch(p, ops[j]);
        reply := Number(v);
      } else {
        reply := Store(p, ops[j]);
      }
      replies, states := replies + [reply], states + [BitsOf(p[..])];
    }
  }

  lemma LegalWidth(op: Op, size: nat)
    requires Legal(op, size)
    ensures 1 <= op.bits <= 64
  {
  }

  // ----- Making room -----

  /** What the parser lets through, whatever the length of the string. */
  ghost predicate Parsed(op: Op) {
    Legal(op, op.offset + op.bits)
  }

  /** lookupStringForBitCommand: the string is extended with zeros up to a bit, and never cut. */
  method Grow(p: array<bv8>, maxbit: nat) returns (q: array<bv8>)
    ensures fresh(q) && q.Length == (if p.Length > maxbit / 8 then p.Length else maxbit / 8 + 1)
    ensures BitsOf(q[..]) == Padded(BitsOf(p[..]), 8 * q.Length)
  {
    hide BitsOf;
    var n := if p.Length > maxbit / 8 then p.Length else maxbit / 8 + 1;
    q := new bv8[n](i requires 0 <= i < n reads p => if i < p.Length then p[i] else 0);
    GrownBits(p[..], q[..]);
  }

  lemma GrownBits(s: seq<bv8>, r: seq<bv8>)
    requires |s| <= |r| && forall i :: 0 <= i < |r| ==> r[i] == if i < |s| then s[i] else 0
    ensures BitsOf(r) == Padded(BitsOf(s), 8 * |r|)
  {
    hide P.BitOf, BitsOf;
    var a, b := BitsOf(r), Padded(BitsOf(s), 8 * |r|);
    forall x | 0 <= x < 8 * |r| ensures a[x] == b[x] {
      ZeroByte(x % 8);
    }
  }

  /** The last bit that an operation writes. */
  method HighestWrite(ops: seq<Op>) returns (readonly: bool, highest: nat)
    ensures readonly <==> forall i :: 0 <= i < |ops| ==> ops[i].code == Get
    ensures forall i :: 0 <= i < |ops| && ops[i].code != Get ==> ops[i].offset + ops[i].bits <= highest + 1
    ensures readonly ==> highest == 0
    ensures !readonly ==>
      exists i :: 0 <= i < |ops| && ops[i].code != Get && (highest == 0 || ops[i].offset + ops[i].bits == highest + 1)
  {
    readonly, highest := true, 0;
    for j := 0 to |ops|
      invariant readonly <==> forall i :: 0 <= i < j ==> ops[i].code == Get
      invariant forall i :: 0 <= i < j && ops[i].code != Get ==> ops[i].offset + ops[i].bits <= highest + 1
      invariant readonly ==> highest == 0
      invariant !readonly ==>
        exists i :: 0 <= i < j && ops[i].code != Get && (highest == 0 || ops[i].offset + ops[i].bits == highest + 1)
    {
      if ops[j].code != Get {
        readonly := false;
        if ops[j].offset + ops[j].bits > highest + 1 {
          highest := ops[j].offset + ops[j].bits - 1;
        }
      }
    }
  }

  /**
    bitfieldGeneric: the string is made long enough for the writing operations, and the operations are then done
    in order. Without a writing operation the string stays as it is.
  */
  method Command(p: array<bv8>, ops: seq<Op>) returns (q: array<bv8>, replies: seq<Reply>, ghost states: seq<Bits>)
    requires forall i :: 0 <= i < |ops| ==> Parsed(ops[i])
    ensures p[..] == old(p[..]) && |replies| == |ops| && |states| == |ops| + 1 && states[|ops|] == BitsOf(q[..])
    ensures states[0] == Padded(BitsOf(p[..]), 8 * q.Length)
    ensures (forall i :: 0 <= i < |ops| ==> ops[i].code == Get) ==> q[..] == p[..]
    ensures forall i :: 0 <= i < |ops| ==>
      |states[i]| == 8 * q.Length && Legal(ops[i], 8 * q.Length) && Stepped(states[i], states[i + 1], ops[i], replies[i])
  {
    hide BitsOf, Stored, Read, Padded, Stepped;
    var readonly, highest := HighestWrite(ops);
    if readonly {
      q := new bv8[p.Length](i requires 0 <= i < p.Length reads p => p[i]);
      assert q[..] == p[..];
      PaddedSame(BitsOf(p[..]));
    } else {
      q := Grow(p, highest);
    }
    replies, states := Run(q, ops);
    if readonly {
      UnchangedStates(ops, states, replies, q.Length);
      BitsDetermine(p[..], q[..]);
    }
  }

  lemma PaddedSame(b: Bits)
    ensures Padded(b, |b|) == b
  {
  }

  lemma {:induction false} UnchangedStates(ops: seq<Op>, states: seq<Bits>, replies: seq<Reply>, n: nat)
    requires |replies| == |ops| && |states| == |ops| + 1 && forall i :: 0 <= i < |ops| ==> ops[i].code == Get
    requires forall i :: 0 <= i < |ops| ==>
        |states[i]| == 8 * n && Legal(ops[i], 8 * n) && Stepped(states[i], states[i + 1], ops[i], replies[i])
    ensures states[|ops|] == states[0]
  {
    if ops != [] {
      var k := |ops| - 1;
      UnchangedStates(ops[..k], states[..k + 1], replies[..k], n);
      assert Stepped(states[k], states[k + 1], ops[k], replies[k]);
    }
  }

  /** A string is its bits. */
  lemma BitsDetermine(s: seq<bv8>, r: seq<bv8>)
    requires |s| == |r| && BitsOf(s) == BitsOf(r)
    ensures s == r
  {
    hide P.BitOf, BitsOf;
    forall i | 0 <= i < |s| ensures s[i] == r[i] {
      forall k | 0 <= k < 8 ensures P.BitOf(s[i], k) == P.BitOf(r[i], k) {
        var x := 8 * i + k;
        assert x / 8 == i && x % 8 == k;
        BitIsDigit(s, x);
        BitIsDigit(r, x);
      }
      ByteIsBits(s[i], r[i]);
    }
  }

  lemma ByteIsBits(a: bv8, b: bv8)
    requires forall k :: 0 <= k < 8 ==> P.BitOf(a, k) == P.BitOf(b, k)
    ensures a == b
  {
    assert P.BitOf(a, 0) == P.BitOf(b, 0) && P.BitOf(a, 1) == P.BitOf(b, 1) && P.BitOf(a, 2) == P.BitOf(b, 2) &&
        P.BitOf(a, 3) == P.BitOf(b, 3);
    assert P.BitOf(a, 4) == P.BitOf(b, 4) && P.BitOf(a, 5) == P.BitOf(b, 5) && P.BitOf(a, 6) == P.BitOf(b, 6) &&
        P.BitOf(a, 7) == P.BitOf(b, 7);
  }
}
