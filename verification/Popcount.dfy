/**
  Counting the ones of a string: 28 bytes at a time with word-parallel sums, against a
  count bit by bit; and the BITCOUNT command with a range of bits.
*/
module Popcount {

  // ----- The meaning -----

  function One(b: bv8): (n: nat) {
    if b == 0 then 0 else 1
  }

  /** The ones of a byte. */
  function Ones(b: bv8): (n: nat) {
    One(b & 1) + One((b >> 1) & 1) + One((b >> 2) & 1) + One((b >> 3) & 1) + One((b >> 4) & 1) + One((b >> 5) & 1) +
      One((b >> 6) & 1) + One((b >> 7) & 1)
  }

  /** The ones of a string. */
  function Count(s: seq<bv8>): (n: nat) {
    if s == [] then 0 else Count(s[..|s| - 1]) + Ones(s[|s| - 1])
  }

  lemma {:induction false} CountSplit(a: seq<bv8>, b: seq<bv8>)
    ensures Count(a + b) == Count(a) + Count(b)
  {
    hide Ones;
    if b == [] {
      assert a + b == a;
    } else {
      CountSplit(a, b[..|b| - 1]);
      assert (a + b)[..|a + b| - 1] == a + b[..|b| - 1];
    }
  }

  // ----- The sums within a word -----

  // Every step is a function of its own, so that a proof about one step does not look into the others.

  function Step1(x: bv32): (r: bv32) {
    x - ((x >> 1) & 0x55555555)
  }

  function Step2(a: bv32): (r: bv32) {
    (a & 0x33333333) + ((a >> 2) & 0x33333333)
  }

  function Step3(b: bv32): (r: bv32) {
    (b + (b >> 4)) & 0x0F0F0F0F
  }

  function Sums(x: bv32): (r: bv32) {
    Step3(Step2(Step1(x)))
  }

  function Pairs(x: bv32): (r: bv32) {
    (x & 0x55555555) + ((x >> 1) & 0x55555555)
  }

  function Nibbles(x: bv32): (r: bv32) {
    (x & 0x11111111) + ((x >> 1) & 0x11111111) + ((x >> 2) & 0x11111111) + ((x >> 3) & 0x11111111)
  }

  /** Four bits of every byte, added up within the bytes. */
  function Quarter(y: bv32): (r: bv32) {
    (y & 0x01010101) + ((y >> 1) & 0x01010101) + ((y >> 2) & 0x01010101) + ((y >> 3) & 0x01010101)
  }

  lemma Step1Is(x: bv32)
    ensures Step1(x) == Pairs(x)
  {
  }

  lemma Step2Is(x: bv32)
    ensures Step2(Pairs(x)) == Nibbles(x)
  {
  }

  lemma Step3Is(x: bv32)
    ensures Step3(Nibbles(x)) == Quarter(x) + Quarter(x >> 4)
  {
    Step3Splits(x);
    LowNibbles(x);
    HighNibbles(x);
  }

  lemma Step3Splits(x: bv32)
    ensures Step3(Nibbles(x)) == (Nibbles(x) & 0x0F0F0F0F) + ((Nibbles(x) >> 4) & 0x0F0F0F0F)
  {
  }

  lemma LowNibbles(x: bv32)
    ensures Nibbles(x) & 0x0F0F0F0F == Quarter(x)
  {
  }

  lemma HighNibbles(x: bv32)
    ensures (Nibbles(x) >> 4) & 0x0F0F0F0F == Quarter(x >> 4)
  {
  }

  /** The sums of a word are the sums of its single bits, byte by byte. */
  lemma SumsAre(x: bv32)
    ensures Sums(x) == Quarter(x) + Quarter(x >> 4)
  {
    hide Step1, Step2, Step3, Pairs, Nibbles, Quarter;
    Step1Is(x);
    Step2Is(x);
    Step3Is(x);
  }

  // ----- The bytes of a word -----

  /** Four bytes as they are read into a word. */
  function Word(a: bv8, b: bv8, c: bv8, d: bv8): (x: bv32) {
    (a as bv32) | ((b as bv32) << 8) | ((c as bv32) << 16) | ((d as bv32) << 24)
  }

  function Byte0(s: bv32): (b: bv8) {
    (s & 0xFF) as bv8
  }

  function Byte1(s: bv32): (b: bv8) {
    ((s >> 8) & 0xFF) as bv8
  }

  function Byte2(s: bv32): (b: bv8) {
    ((s >> 16) & 0xFF) as bv8
  }

  function Byte3(s: bv32): (b: bv8) {
    (s >> 24) as bv8
  }

  /** The ones of a byte, as a byte. */
  function Bits(b: bv8): (r: bv8) {
    (b & 1) + ((b >> 1) & 1) + ((b >> 2) & 1) + ((b >> 3) & 1) + ((b >> 4) & 1) + ((b >> 5) & 1) + ((b >> 6) & 1) + ((b >> 7) & 1)
  }

  lemma Sums0(a: bv8, b: bv8, c: bv8, d: bv8)
    ensures var x := Word(a, b, c, d); Byte0(Quarter(x) + Quarter(x >> 4)) == Bits(a)
  {
  }

  lemma Sums1(a: bv8, b: bv8, c: bv8, d: bv8)
    ensures var x := Word(a, b, c, d); Byte1(Quarter(x) + Quarter(x >> 4)) == Bits(b)
  {
  }

  lemma Sums2(a: bv8, b: bv8, c: bv8, d: bv8)
    ensures var x := Word(a, b, c, d); Byte2(Quarter(x) + Quarter(x >> 4)) == Bits(c)
  {
  }

  lemma Sums3(a: bv8, b: bv8, c: bv8, d: bv8)
    ensures var x := Word(a, b, c, d); Byte3(Quarter(x) + Quarter(x >> 4)) == Bits(d)
  {
  }

  lemma BitsSmall(b: bv8)
    ensures AtMost(Bits(b), 8)
  {
  }

  lemma BitsAreOnes(b: bv8)
    ensures AtMost(Bits(b), 8) && Val(Bits(b)) == Ones(b)
  {
    BitsSmall(b);
  }

  // ----- Adding the sums of several words -----

  function Sum32(s: bv32, t: bv32): (r: bv32) {
    s + t
  }

  function Sum8(a: bv8, b: bv8): (r: bv8) {
    a + b
  }

  predicate AtMost(a: bv8, n: bv8) {
    a <= n
  }

  function Val(b: bv8): (n: int) {
    b as int
  }

  ghost predicate Low(s: bv32, n: bv8) {
    AtMost(Byte0(s), n) && AtMost(Byte1(s), n) && AtMost(Byte2(s), n) && AtMost(Byte3(s), n)
  }

  lemma Add0(s: bv32, t: bv32)
    requires Low(s, 48) && Low(t, 8)
    ensures Byte0(Sum32(s, t)) == Sum8(Byte0(s), Byte0(t))
  {
  }

  lemma Add1(s: bv32, t: bv32)
    requires Low(s, 48) && Low(t, 8)
    ensures Byte1(Sum32(s, t)) == Sum8(Byte1(s), Byte1(t))
  {
  }

  lemma Add2(s: bv32, t: bv32)
    requires Low(s, 48) && Low(t, 8)
    ensures Byte2(Sum32(s, t)) == Sum8(Byte2(s), Byte2(t))
  {
  }

  lemma Add3(s: bv32, t: bv32)
    requires Low(s, 48) && Low(t, 8)
    ensures Byte3(Sum32(s, t)) == Sum8(Byte3(s), Byte3(t))
  {
  }

  lemma ValAdd(a: bv8, b: bv8)
    requires AtMost(a, 48) && AtMost(b, 8)
    ensures Val(Sum8(a, b)) == Val(a) + Val(b)
  {
  }

  lemma BoundAdd(a: bv8, b: bv8, n: bv8)
    requires AtMost(a, n) && AtMost(n, 48) && AtMost(b, 8)
    ensures AtMost(Sum8(a, b), Sum8(n, 8)) && AtMost(a, 48)
  {
  }

  lemma SumsBytes(a: bv8, b: bv8, c: bv8, d: bv8)
    ensures var t := Sums(Word(a, b, c, d));
      Byte0(t) == Bits(a) && Byte1(t) == Bits(b) && Byte2(t) == Bits(c) && Byte3(t) == Bits(d)
  {
    hide Sums, Word, Byte0, Byte1, Byte2, Byte3, Bits;
    SumsAre(Word(a, b, c, d));
    Sums0(a, b, c, d);
    Sums1(a, b, c, d);
    Sums2(a, b, c, d);
    Sums3(a, b, c, d);
  }

  /** Every byte of the running sum grows by the ones of the byte of the next word. */
  lemma AddWord(s: bv32, a: bv8, b: bv8, c: bv8, d: bv8, n: bv8)
    requires Low(s, n) && AtMost(n, 48)
    ensures var s' := Sum32(s, Sums(Word(a, b, c, d)));
      && Low(s', Sum8(n, 8))
      && Val(Byte0(s')) == Val(Byte0(s)) + Ones(a) && Val(Byte1(s')) == Val(Byte1(s)) + Ones(b)
      && Val(Byte2(s')) == Val(Byte2(s)) + Ones(c) && Val(Byte3(s')) == Val(Byte3(s)) + Ones(d)
  {
    hide Sums, Word, Byte0, Byte1, Byte2, Byte3, Bits, Ones, Val, Sum32, Sum8, AtMost;
    var t := Sums(Word(a, b, c, d));
    SumsBytes(a, b, c, d);
    BitsAreOnes(a);
    BitsAreOnes(b);
    BitsAreOnes(c);
    BitsAreOnes(d);
    BoundAdd(Byte0(s), Byte0(t), n);
    BoundAdd(Byte1(s), Byte1(t), n);
    BoundAdd(Byte2(s), Byte2(t), n);
    BoundAdd(Byte3(s), Byte3(t), n);
    Add0(s, t);
    Add1(s, t);
    Add2(s, t);
    Add3(s, t);
    ValAdd(Byte0(s), Byte0(t));
    ValAdd(Byte1(s), Byte1(t));
    ValAdd(Byte2(s), Byte2(t));
    ValAdd(Byte3(s), Byte3(t));
  }

  /** A word multiplied by 0x01010101 modulo 2^32: the top byte is the sum of its bytes. */
  function Gather(s: bv32): (n: int) {
    (Val(Byte0(s)) + 0x100 * Val(Byte1(s)) + 0x10000 * Val(Byte2(s)) +
      0x1000000 * Val(Byte3(s))) * 0x01010101 % 0x1_0000_0000 / 0x1000000
  }

  lemma GatherIs(b0: int, b1: int, b2: int, b3: int)
    requires 0 <= b0 <= 56 && 0 <= b1 <= 56 && 0 <= b2 <= 56 && 0 <= b3 <= 56
    ensures (b0 + 0x100 * b1 + 0x10000 * b2 + 0x1000000 * b3) * 0x01010101 % 0x1_0000_0000 / 0x1000000 == b0 + b1 + b2 + b3
  {
    var low, sum := b0 + 0x100 * (b0 + b1) + 0x10000 * (b0 + b1 + b2), b0 + b1 + b2 + b3;
    var high := (b1 + b2 + b3) + 0x100 * (b2 + b3) + 0x10000 * b3;
    var n := (b0 + 0x100 * b1 + 0x10000 * b2 + 0x1000000 * b3) * 0x01010101;
    assert n == (low + 0x1000000 * sum) + 0x1_0000_0000 * high;
    Remainder(n, low + 0x1000000 * sum, high);
    Quotient(low, sum);
  }

  lemma Remainder(n: int, r: int, h: int)
    requires n == r + 0x1_0000_0000 * h && 0 <= r < 0x1_0000_0000
    ensures n % 0x1_0000_0000 == r
  {
  }

  lemma Quotient(low: int, sum: int)
    requires 0 <= low < 0x1000000
    ensures (low + 0x1000000 * sum) / 0x1000000 == sum
  {
  }

  // ----- The count -----

  function Ones4(s: seq<bv8>, p: nat): (n: nat)
    requires p + 4 <= |s|
  {
    Ones(s[p]) + Ones(s[p + 1]) + Ones(s[p + 2]) + Ones(s[p + 3])
  }

  /** The sums of the word at a position. */
  function SumsAt(s: seq<bv8>, p: nat): (r: bv32)
    requires p + 4 <= |s|
  {
    Sums(Word(s[p], s[p + 1], s[p + 2], s[p + 3]))
  }

  /** The bytes of a running sum, added up, and a bound for each. */
  ghost predicate Running(t: bv32, n: bv8, ones: int) {
    Low(t, n) && Val(Byte0(t)) + Val(Byte1(t)) + Val(Byte2(t)) + Val(Byte3(t)) == ones
  }

  lemma RunOn(t: bv32, n: bv8, ones: int, s: seq<bv8>, p: nat)
    requires Running(t, n, ones) && AtMost(n, 48) && p + 4 <= |s|
    ensures Running(Sum32(t, SumsAt(s, p)), Sum8(n, 8), ones + Ones4(s, p))
  {
    hide Low, Sums, Word, Byte0, Byte1, Byte2, Byte3, Val, Ones, Sum32, Sum8, AtMost;
    AddWord(t, s[p], s[p + 1], s[p + 2], s[p + 3], n);
  }

  /** Seven words at once. */
  function Sums7(s: seq<bv8>, p: nat): (t: bv32)
    requires p + 28 <= |s|
  {
    Sum32(Sum32(Sum32(Sum32(Sum32(Sum32(SumsAt(s, p), SumsAt(s, p + 4)), SumsAt(s, p + 8)), SumsAt(s, p + 12)),
      SumsAt(s, p + 16)), SumsAt(s, p + 20)), SumsAt(s, p + 24))
  }

  lemma Start(t: bv32)
    ensures Running(0, 0, 0) && Sum32(0, t) == t
  {
  }

  lemma Eights()
    ensures Sum8(0, 8) == 8 && Sum8(8, 8) == 16 && Sum8(16, 8) == 24 && Sum8(24, 8) == 32 && Sum8(32, 8) == 40 &&
        Sum8(40, 8) == 48 && Sum8(48, 8) == 56
    ensures AtMost(0, 48) && AtMost(8, 48) && AtMost(16, 48) && AtMost(24, 48) && AtMost(32, 48) && AtMost(40, 48) &&
        AtMost(48, 48)
  {
  }

  lemma Running7(s: seq<bv8>, p: nat)
    requires p + 28 <= |s|
    ensures Running(Sums7(s, p), 56,
        Ones4(s, p) + Ones4(s, p + 4) + Ones4(s, p + 8) + Ones4(s, p + 12)
        + Ones4(s, p + 16) + Ones4(s, p + 20) + Ones4(s, p + 24))
  {
    hide Running, Sum32, Sum8, AtMost, SumsAt, Ones4;
    Eights();
    Start(SumsAt(s, p));
    RunOn(0, 0, 0, s, p);
    var t := SumsAt(s, p);
    var ones := Ones4(s, p);
    RunOn(t, 8, ones, s, p + 4);
    t, ones := Sum32(t, SumsAt(s, p + 4)), ones + Ones4(s, p + 4);
    RunOn(t, 16, ones, s, p + 8);
    t, ones := Sum32(t, SumsAt(s, p + 8)), ones + Ones4(s, p + 8);
    RunOn(t, 24, ones, s, p + 12);
    t, ones := Sum32(t, SumsAt(s, p + 12)), ones + Ones4(s, p + 12);
    RunOn(t, 32, ones, s, p + 16);
    t, ones := Sum32(t, SumsAt(s, p + 16)), ones + Ones4(s, p + 16);
    RunOn(t, 40, ones, s, p + 20);
    t, ones := Sum32(t, SumsAt(s, p + 20)), ones + Ones4(s, p + 20);
    RunOn(t, 48, ones, s, p + 24);
  }

  lemma SmallBytes(b: bv8)
    requires AtMost(b, 56)
    ensures 0 <= Val(b) <= 56
  {
  }

  lemma GatherRunning(t: bv32, ones: int)
    requires Running(t, 56, ones)
    ensures Gather(t) == ones
  {
    hide Val, Byte0, Byte1, Byte2, Byte3, AtMost;
    SmallBytes(Byte0(t));
    SmallBytes(Byte1(t));
    SmallBytes(Byte2(t));
    SmallBytes(Byte3(t));
    GatherIs(Val(Byte0(t)), Val(Byte1(t)), Val(Byte2(t)), Val(Byte3(t)));
  }

  lemma CountFour(s: seq<bv8>, p: nat)
    requires p + 4 <= |s|
    ensures Count(s[..p + 4]) == Count(s[..p]) + Ones4(s, p)
  {
    hide Ones;
    CountNext(s, p);
    CountNext(s, p + 1);
    CountNext(s, p + 2);
    CountNext(s, p + 3);
  }

  lemma CountNext(s: seq<bv8>, p: nat)
    requires p < |s|
    ensures Count(s[..p + 1]) == Count(s[..p]) + Ones(s[p])
  {
    hide Ones;
    assert s[..p + 1][..p] == s[..p];
  }

  /** The word-parallel sum of 28 bytes is their count. */
  lemma Block(s: seq<bv8>, p: nat)
    requires p + 28 <= |s|
    ensures Count(s[..p + 28]) == Count(s[..p]) + Gather(Sums7(s, p))
  {
    hide Count, Ones4, Gather, Sums7, Running;
    Running7(s, p);
    GatherRunning(Sums7(s, p),
      Ones4(s, p) + Ones4(s, p + 4) + Ones4(s, p + 8) + Ones4(s, p + 12)
      + Ones4(s, p + 16) + Ones4(s, p + 20) + Ones4(s, p + 24));
    CountFour(s, p);
    CountFour(s, p + 4);
    CountFour(s, p + 8);
    CountFour(s, p + 12);
    CountFour(s, p + 16);
    CountFour(s, p + 20);
    CountFour(s, p + 24);
  }

  /** redisPopcount, on a string whose first byte has any alignment. */
  method Popcount(s: seq<bv8>, address: nat) returns (bits: int)
    ensures bits == Count(s)
  {
    hide Count, Ones, Gather, Sums7;
    bits := 0;
    var p := 0;
    CountNothing();
    assert s[..0] == [];
    while (address + p) % 4 != 0 && p < |s|
      invariant 0 <= p <= |s| && bits == Count(s[..p])
      decreases |s| - p
    {
      CountNext(s, p);
      bits := bits + Ones(s[p]);
      p := p + 1;
    }
    while |s| - p >= 28
      invariant 0 <= p <= |s| && bits == Count(s[..p])
    {
      Block(s, p);
      bits := bits + Gather(Sums7(s, p));
      p := p + 28;
    }
    while p < |s|
      invariant 0 <= p <= |s| && bits == Count(s[..p])
    {
      CountNext(s, p);
      bits := bits + Ones(s[p]);
      p := p + 1;
    }
    assert s[..p] == s;
  }

  lemma CountNothing()
    ensures Count([]) == 0
  {
  }

  // ----- BITCOUNT -----

  /** The bit at a position of a byte, the most significant first. */
  function BitOf(b: bv8, i: nat): (n: nat)
    requires i < 8
  {
    match i
    case 0 => One((b >> 7) & 1)
    case 1 => One((b >> 6) & 1)
    case 2 => One((b >> 5) & 1)
    case 3 => One((b >> 4) & 1)
    case 4 => One((b >> 3) & 1)
    case 5 => One((b >> 2) & 1)
    case 6 => One((b >> 1) & 1)
    case 7 => One(b & 1)
  }

  /** The bit at a position of a string. */
  function BitAt(s: seq<bv8>, q: nat): (n: nat)
    requires q < 8 * |s|
  {
    BitOf(s[q / 8], q % 8)
  }

  /** The ones at positions from a up to and without b. */
  function CountBits(s: seq<bv8>, a: nat, b: nat): (n: nat)
    requires b <= 8 * |s|
  {
    if a >= b then 0 else CountBits(s, a, b - 1) + BitAt(s, b - 1)
  }

  /** The ones of a byte before position i. */
  function Before(b: bv8, i: nat): (n: nat)
    requires i <= 8
  {
    if i == 0 then 0 else Before(b, i - 1) + BitOf(b, i - 1)
  }

  lemma {:induction false} CountBitsSplit(s: seq<bv8>, a: nat, m: nat, b: nat)
    requires a <= m <= b <= 8 * |s|
    ensures CountBits(s, a, b) == CountBits(s, a, m) + CountBits(s, m, b)
  {
    hide BitAt;
    if m < b {
      CountBitsSplit(s, a, m, b - 1);
    }
  }

  /** Positions within one byte. */
  lemma {:induction false} CountInByte(s: seq<bv8>, k: nat, i: nat)
    requires k < |s| && i <= 8
    ensures CountBits(s, 8 * k, 8 * k + i) == Before(s[k], i)
  {
    hide BitOf;
    if i > 0 {
      CountInByte(s, k, i - 1);
      assert (8 * k + (i - 1)) / 8 == k && (8 * k + (i - 1)) % 8 == i - 1;
    }
  }

  lemma BeforeSums(b: bv8)
    ensures Before(b, 0) == 0
    ensures Before(b, 1) == BitOf(b, 0)
    ensures Before(b, 2) == Before(b, 1) + BitOf(b, 1)
    ensures Before(b, 3) == Before(b, 2) + BitOf(b, 2)
    ensures Before(b, 4) == Before(b, 3) + BitOf(b, 3)
    ensures Before(b, 5) == Before(b, 4) + BitOf(b, 4)
    ensures Before(b, 6) == Before(b, 5) + BitOf(b, 5)
    ensures Before(b, 7) == Before(b, 6) + BitOf(b, 6)
    ensures Before(b, 8) == Before(b, 7) + BitOf(b, 7)
  {
  }

  lemma BeforeAll(b: bv8)
    ensures Before(b, 8) == Ones(b)
  {
    hide One, Before;
    BeforeSums(b);
  }

  lemma {:induction false} CountBytes(s: seq<bv8>, j: nat)
    requires j <= |s|
    ensures CountBits(s, 0, 8 * j) == Count(s[..j])
  {
    hide Ones, BitAt;
    if j > 0 {
      CountBytes(s, j - 1);
      CountBitsSplit(s, 0, 8 * (j - 1), 8 * j);
      CountInByte(s, j - 1, 8);
      BeforeAll(s[j - 1]);
      CountNext(s, j - 1);
    } else {
      CountNothing();
    }
  }

  /** ~((1 << (8 - r)) - 1): the bits before position r. */
  function FirstMask(r: nat): (m: bv8)
    requires r < 8
  {
    match r
    case 0 => 0x00
    case 1 => 0x80
    case 2 => 0xC0
    case 3 => 0xE0
    case 4 => 0xF0
    case 5 => 0xF8
    case 6 => 0xFC
    case 7 => 0xFE
  }

  /** (1 << (7 - e)) - 1: the bits after position e. */
  function LastMask(e: nat): (m: bv8)
    requires e < 8
  {
    match e
    case 0 => 0x7F
    case 1 => 0x3F
    case 2 => 0x1F
    case 3 => 0x0F
    case 4 => 0x07
    case 5 => 0x03
    case 6 => 0x01
    case 7 => 0x00
  }

  /** A mask keeps the bits that are set in it. */
  lemma AndBit(b: bv8, m: bv8, k: nat)
    requires k < 8
    ensures BitOf(And(b, m), k) == if BitOf(m, k) == 1 then BitOf(b, k) else 0
  {
    hide BitOf, And;
    if k < 4 {
      AndBitHigh(b, m, k);
    } else {
      AndBitLow(b, m, k);
    }
  }

  lemma AndBitHigh(b: bv8, m: bv8, k: nat)
    requires k < 4
    ensures BitOf(And(b, m), k) == if BitOf(m, k) == 1 then BitOf(b, k) else 0
  {
  }

  lemma AndBitLow(b: bv8, m: bv8, k: nat)
    requires 4 <= k < 8
    ensures BitOf(And(b, m), k) == if BitOf(m, k) == 1 then BitOf(b, k) else 0
  {
  }

  /** The bits from lo up to and without hi are set in a mask, and no others. */
  ghost predicate Covers(m: bv8, lo: nat, hi: nat) {
    forall k :: 0 <= k < 8 ==> BitOf(m, k) == if lo <= k < hi then 1 else 0
  }

  lemma FirstCovers(r: nat)
    requires r < 8
    ensures Covers(FirstMask(r), 0, r)
  {
  }

  lemma LastCovers(e: nat)
    requires e < 8
    ensures Covers(LastMask(e), e + 1, 8)
  {
  }

  function Min(a: nat, b: nat): (m: nat) {
    if a < b then a else b
  }

  /** The ones under a mask are those of the positions it covers. */
  lemma {:induction false} UnderMask(b: bv8, m: bv8, lo: nat, hi: nat, j: nat)
    requires Covers(m, lo, hi) && lo <= hi <= 8 && j <= 8
    ensures Before(And(b, m), j) == Before(b, Min(j, hi)) - Before(b, Min(j, lo))
  {
    hide BitOf, And;
    if j > 0 {
      UnderMask(b, m, lo, hi, j - 1);
      AndBit(b, m, j - 1);
    }
  }

  /** The first mask keeps the ones before a position. */
  lemma FirstMaskIs(b: bv8, r: nat)
    requires r < 8
    ensures Ones(And(b, FirstMask(r))) == Before(b, r)
  {
    hide BitOf, And, Ones, FirstMask, Covers;
    FirstCovers(r);
    UnderMask(b, FirstMask(r), 0, r, 8);
    BeforeAll(And(b, FirstMask(r)));
  }

  /** The last mask keeps the ones after a position. */
  lemma LastMaskIs(b: bv8, e: nat)
    requires e < 8
    ensures Before(b, e + 1) + Ones(And(b, LastMask(e))) == Ones(b)
  {
    hide BitOf, And, Ones, LastMask, Covers;
    LastCovers(e);
    UnderMask(b, LastMask(e), e + 1, 8, 8);
    BeforeAll(And(b, LastMask(e)));
    BeforeAll(b);
  }

  /** The start or end of a range, counted from the end when negative. */
  function Place(x: int, total: nat): (p: nat) {
    var y := if x < 0 then total + x else x;
    if y < 0 then 0 else y
  }

  /** The ones in a range of positions; the end is included and clipped. */
  function InRange(s: seq<bv8>, start: int, end: int, unit: nat): (n: nat)
    requires unit == 1 || unit == 8
  {
    var total := 8 * |s| / unit;
    var a, b := Place(start, total), Place(end, total);
    var b' := if b >= total then total - 1 else b;
    if (start < 0 && end < 0 && start > end) || a > b' then 0 else CountBits(s, unit * a, unit * (b' + 1))
  }

  function And(x: bv8, m: bv8): (r: bv8) {
    x & m
  }

  predicate Marks(m: bv8) {
    m != 0
  }

  /** The marked bits of an edge byte, or an empty byte. */
  function Under(x: bv8, m: bv8): (r: bv8) {
    if Marks(m) then And(x, m) else 0
  }

  /** The ones of whole bytes, without those under the masks of the first and the last byte. */
  method CountMasked(s: seq<bv8>, start: nat, end: nat, firstMask: bv8, lastMask: bv8, address: nat) returns (count: int)
    requires start <= end < |s|
    ensures count == CountBits(s, 8 * start, 8 * (end + 1)) - Ones(And(s[start], firstMask)) - Ones(And(s[end], lastMask))
  {
    hide Ones, Count, CountBits, Marks, Under, And;
    count := Popcount(s[start..end + 1], address + start);
    WholeBytes(s, start, end);
    TwoBytes(s[start], firstMask, s[end], lastMask);
    if Marks(firstMask) || Marks(lastMask) {
      var firstlast := [Under(s[start], firstMask), Under(s[end], lastMask)];
      var outside := Popcount(firstlast, 0);
      count := count - outside;
    }
  }

  /** The range that BITCOUNT takes from its arguments. */
  method Bounds(start0: int, end0: int, totlen: nat) returns (start: nat, end: int)
    ensures start == Place(start0, totlen) && end == if Place(end0, totlen) >= totlen then totlen - 1 else Place(end0, totlen)
  {
    var a, b := start0, end0;
    if a < 0 {
      a := totlen + a;
    }
    if b < 0 {
      b := totlen + b;
    }
    if a < 0 {
      a := 0;
    }
    if b < 0 {
      b := 0;
    }
    start := a;
    end := if b >= totlen then totlen - 1 else b;
  }

  /** bitcountCommand with a range: bytes are counted whole, and bits outside the range subtracted. */
  method Bitcount(s: seq<bv8>, start0: int, end0: int, isbit: bool, address: nat) returns (count: int)
    ensures count == InRange(s, start0, end0, if isbit then 1 else 8)
  {
    hide Ones, Count, CountBits, FirstMask, LastMask, And, Place;
    if start0 < 0 && end0 < 0 && start0 > end0 {
      return 0;
    }
    var start, end := Bounds(start0, end0, if isbit then 8 * |s| else |s|);
    if start > end {
      return 0;
    }
    if isbit {
      Edges(s, start, end);
      count := CountMasked(s, start / 8, end / 8, FirstMask(start % 8), LastMask(end % 8), address);
    } else {
      NoOnes(s[start]);
      NoOnes(s[end]);
      count := CountMasked(s, start, end, 0, 0, address);
    }
  }

  lemma WholeBytes(s: seq<bv8>, i: nat, j: nat)
    requires i <= j < |s|
    ensures Count(s[i..j + 1]) == CountBits(s, 8 * i, 8 * (j + 1))
  {
    hide Count, CountBits;
    CountBytes(s, i);
    CountBytes(s, j + 1);
    CountBitsSplit(s, 0, 8 * i, 8 * (j + 1));
    CountSplit(s[..i], s[i..j + 1]);
    assert s[..i] + s[i..j + 1] == s[..j + 1];
  }

  /** The bits of a range are those of its bytes without the ones before and after it. */
  lemma Edges(s: seq<bv8>, a: nat, b: nat)
    requires a <= b < 8 * |s|
    ensures CountBits(s, a, b + 1) == CountBits(s, 8 * (a / 8),
        8 * (b / 8 + 1)) - Ones(And(s[a / 8], FirstMask(a % 8))) - Ones(And(s[b / 8], LastMask(b % 8)))
  {
    hide CountBits, Ones, FirstMask, LastMask, Before, And;
    var i, j := a / 8, b / 8;
    assert a == 8 * i + a % 8 && b == 8 * j + b % 8;
    CountBitsSplit(s, 8 * i, a, 8 * (j + 1));
    CountBitsSplit(s, a, b + 1, 8 * (j + 1));
    CountBitsSplit(s, 8 * j, b + 1, 8 * (j + 1));
    CountInByte(s, i, a % 8);
    FirstMaskIs(s[i], a % 8);
    CountInByte(s, j, b % 8 + 1);
    CountInByte(s, j, 8);
    BeforeAll(s[j]);
    LastMaskIs(s[j], b % 8);
  }

  lemma NoOnes(x: bv8)
    ensures Ones(0) == 0 && Ones(And(x, 0)) == 0
  {
  }

  lemma TwoBytes(x: bv8, m: bv8, y: bv8, n: bv8)
    ensures Count([Under(x, m), Under(y, n)]) == Ones(And(x, m)) + Ones(And(y, n))
    ensures !Marks(m) && !Marks(n) ==> Ones(And(x, m)) == 0 && Ones(And(y, n)) == 0
  {
    hide Ones, And;
    NoOnes(x);
    NoOnes(y);
    var two := [Under(x, m), Under(y, n)];
    assert two[..1] == [two[0]] && two[..0] == [] && two[..1][..0] == [];
    CountNothing();
  }
}
