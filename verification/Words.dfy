/** Facts about 64-bit words and masks. The machine's operations have names here, so that longer arguments can treat them
    as unknown functions. */
module Words {

  function Low(x: bv64, mask: bv64): bv64 { x & mask }
  function High(x: bv64, mask: bv64): bv64 { x & !mask }
  function Or(x: bv64, y: bv64): bv64 { x | y }
  function Sum(x: bv64, y: bv64): bv64 { x + y }
  function Shr(x: bv64, n: bv8): bv64 requires n <= 64 { x >> n }
  function JoinByte(u: bv64, x: bv8): bv64 { (u << 8) | (x as bv64) }
  function LastByte(u: bv64): bv8 { (u & 0xff) as bv8 }
  function Shift8(u: bv64): bv64 { u >> 8 }

  /** A mask of low ones. */
  predicate IsMask(m: bv64) { m & (m + 1) == 0 }

  /** A mask of low ones, and the one that is a byte longer. */
  predicate NextMask(low: bv64, low': bv64) { Short(low) && low' == (low << 8) | 0xff }

  /** A mask of at most seven bytes. */
  predicate Short(low: bv64) { low & 0xFF_FFFF_FFFF_FFFF == low }

  /** No bits but those of the mask. */
  predicate InMask(x: bv64, low: bv64) { x & low == x }

  /** `n` ones. */
  predicate AllOnes(n: bv8, m: bv64) requires n <= 64 { m == (1 << n) - 1 }

  /** The high bits of `b` beside the low bits of its sum with `i`. */
  function Mix(b: bv64, m: bv64, i: bv64): bv64 { Or(High(b, m), Low(Sum(Low(b, m), i), m)) }

  // ----- bytes

  lemma {:induction false} JoinByteLastRaw(u: bv64, low: bv64, low': bv64)
    requires low & 0xFF_FFFF_FFFF_FFFF == low && low' == (low << 8) | 0xff
    ensures (((u >> 8) & low) << 8) | (((u & 0xff) as bv8) as bv64) == u & low'
  {
  }

  /** A word is what its first bytes and its last byte make. */
  lemma {:induction false} JoinByteLast(u: bv64, low: bv64, low': bv64)
    requires NextMask(low, low')
    ensures JoinByte(Low(Shift8(u), low), LastByte(u)) == Low(u, low')
  {
    JoinByteLastRaw(u, low, low');
  }

  /** The first bytes and the last one can be told apart. */
  lemma {:induction false} JoinByteApart(a: bv64, x: bv8, b: bv64, y: bv8, low: bv64)
    requires InMask(a, low) && InMask(b, low) && Short(low) && JoinByte(a, x) == JoinByte(b, y)
    ensures a == b && x == y
  {
  }

  lemma {:induction false} JoinByteFits(a: bv64, x: bv8, low: bv64, low': bv64)
    requires InMask(a, low) && NextMask(low, low')
    ensures InMask(JoinByte(a, x), low')
  {
  }

  // ----- masks

  /** Taking the low bits of one word and the high bits of another. */
  lemma {:induction false} Parts(b: bv64, c: bv64, m: bv64)
    ensures Low(Or(High(b, m), Low(c, m)), m) == Low(c, m)
    ensures High(Or(High(b, m), Low(c, m)), m) == High(b, m)
  {
  }

  lemma {:induction false} PartsFit(b: bv64, c: bv64, m: bv64, k: bv64)
    requires b & k == b && m & k == m
    ensures ((b & !m) | (c & m)) & k == (b & !m) | (c & m)
  {
  }

  lemma {:induction false} PartsWithin(b: bv64, c: bv64, m: bv64, k: bv64)
    requires InMask(b, k) && InMask(m, k)
    ensures Low(Or(High(b, m), Low(c, m)), k) == Or(High(b, m), Low(c, m))
  {
    PartsFit(b, c, m, k);
  }

  lemma {:induction false} Rejoined(b: bv64, m: bv64)
    ensures High(b, m) + Low(b, m) == b && Low(High(b, m), m) == 0
    ensures Or(High(b, m), Low(b, m)) == b && Low(Low(b, m), m) == Low(b, m)
  {
  }

  lemma {:induction false} SumIs(b: bv64, i: bv64)
    ensures Sum(b, i) == b + i
  {
  }

  lemma {:induction false} SumMoved(b: bv64, i: bv64, j: bv64)
    ensures Sum(b, i) == Sum(b + j, i - j)
  {
  }

  lemma {:induction false} SumAssociates(x: bv64, y: bv64, i: bv64)
    ensures Sum(x, y + i) == Sum(x + y, i)
  {
  }

  lemma {:induction false} NoLowBitsRaw(x: bv64, c: bv64, m: bv64)
    requires m & (m + 1) == 0 && x & m == 0
    ensures (x + c) & m == c & m
  {
  }

  /** Adding a word without low bits leaves the low bits. */
  lemma {:induction false} NoLowBits(x: bv64, c: bv64, m: bv64)
    requires IsMask(m) && Low(x, m) == 0
    ensures Low(Sum(x, c), m) == Low(c, m)
  {
    NoLowBitsRaw(x, c, m);
  }

  /** The low bits of a sum depend on the low bits of the summand only. */
  lemma {:induction false} LowBits(b: bv64, i: bv64, m: bv64)
    requires IsMask(m)
    ensures Low(Sum(Low(b, m), i), m) == Low(Sum(b, i), m)
  {
    hide Low;
    hide High;
    hide Or;
    hide Sum;
    hide IsMask;
    Rejoined(b, m);
    SumIs(Low(b, m), i);
    SumAssociates(High(b, m), Low(b, m), i);
    NoLowBits(High(b, m), Low(b, m) + i, m);
  }

  /** Low bits of a sum next to the high bits of one summand. */
  lemma {:induction false} MixMeaning(b: bv64, i: bv64, m: bv64)
    requires IsMask(m)
    ensures Low(Mix(b, m, i), m) == Low(Sum(b, i), m) && High(Mix(b, m, i), m) == High(b, m)
  {
    hide Low;
    hide High;
    hide Or;
    hide Sum;
    hide IsMask;
    Parts(b, Sum(Low(b, m), i), m);
    LowBits(b, i, m);
  }

  lemma {:induction false} MixFits(b: bv64, i: bv64, m: bv64, k: bv64)
    requires InMask(b, k) && InMask(m, k)
    ensures Low(Mix(b, m, i), k) == Mix(b, m, i)
  {
    hide Low;
    hide High;
    hide Or;
    hide Sum;
    hide InMask;
    PartsWithin(b, Sum(Low(b, m), i), m, k);
  }

  lemma {:induction false} SumZero(x: bv64)
    ensures Sum(x, 0) == x
  {
  }

  lemma {:induction false} MixZero(b: bv64, m: bv64)
    ensures Mix(b, m, 0) == b
  {
    hide Low;
    hide High;
    hide Or;
    hide Sum;
    SumZero(Low(b, m));
    Rejoined(b, m);
  }

  /** `n` ones, and the same mask as the source computes it. */
  lemma {:induction false} MaskOf(n: bv8)
    requires 1 <= n <= 48
    ensures var m: bv64 := (1 << n) - 1;
      && m & (m + 1) == 0 && m & 0xFFFF_FFFF_FFFF == m && !m == (0xFFFF_FFFF_FFFF_FFFF << n)
      && (0xFFFF_FFFF_FFFF_FFFF - 1 + 1) & (0xFFFF_FFFF_FFFF_FFFF >> (64 - n)) == m
  {
  }

  lemma {:induction false} AllOnesIsMask(n: bv8, m: bv64)
    requires 1 <= n <= 48 && AllOnes(n, m)
    ensures IsMask(m) && InMask(m, 0xFFFF_FFFF_FFFF) && !m == (0xFFFF_FFFF_FFFF_FFFF << n)
  {
    MaskOf(n);
  }

  // ----- shifting the low bits out

  lemma {:induction false} HighBits12(x: bv64, h: bv64, n: bv8)
    requires 1 <= n <= 12 && h == (0xFFFF_FFFF_FFFF_FFFF << n)
    ensures Shr(x & h, n) == Shr(x, n)
  {
  }

  lemma {:induction false} HighBits28(x: bv64, h: bv64, n: bv8)
    requires 12 < n <= 28 && h == (0xFFFF_FFFF_FFFF_FFFF << n)
    ensures Shr(x & h, n) == Shr(x, n)
  {
  }

  lemma {:induction false} HighBits48(x: bv64, h: bv64, n: bv8)
    requires 28 < n <= 48 && h == (0xFFFF_FFFF_FFFF_FFFF << n)
    ensures Shr(x & h, n) == Shr(x, n)
  {
  }

  lemma {:induction false} HighShifted(x: bv64, m: bv64, n: bv8)
    requires 1 <= n <= 48 && !m == (0xFFFF_FFFF_FFFF_FFFF << n)
    ensures Shr(High(x, m), n) == Shr(x, n)
  {
    hide Shr;
    if n <= 12 { HighBits12(x, !m, n); } else if n <= 28 { HighBits28(x, !m, n); } else { HighBits48(x, !m, n); }
  }

  /** Words with the same high bits are the same after the low bits were shifted out. */
  lemma {:induction false} SameShifted(x: bv64, y: bv64, m: bv64, n: bv8)
    requires 1 <= n <= 48 && AllOnes(n, m) && High(x, m) == High(y, m)
    ensures Shr(x, n) == Shr(y, n)
  {
    hide Shr;
    hide High;
    hide AllOnes;
    AllOnesIsMask(n, m);
    HighShifted(x, m, n);
    HighShifted(y, m, n);
  }

  // ----- sums with the same low bits

  lemma {:induction false} NoDifference(x: bv64, d: bv64, m: bv64)
    requires m & (m + 1) == 0 && (x + d) & m == x & m
    ensures d & m == 0
  {
  }

  lemma {:induction false} Difference(u: bv64, v: bv64, d: bv64, m: bv64)
    requires IsMask(m) && Low(u, m) == Low(v, m) && u == Sum(v, d)
    ensures Low(d, m) == 0
  {
    NoDifference(v, d, m);
  }

  lemma {:induction false} SmallDifference(i: bv64, j: bv64, m: bv64)
    requires m & (m + 1) == 0 && i <= m && j <= m && (i - j) & m == 0
    ensures i == j
  {
  }

  lemma {:induction false} SmallEqual(i: bv64, j: bv64, m: bv64)
    requires IsMask(m) && i <= m && j <= m && Low(i - j, m) == 0
    ensures i == j
  {
    SmallDifference(i, j, m);
  }

  /** Summands within the mask are told apart by the low bits of their sums with the same word. */
  lemma {:induction false} SameSummand(b: bv64, i: bv64, j: bv64, m: bv64)
    requires IsMask(m) && i <= m && j <= m && Low(Sum(b, i), m) == Low(Sum(b, j), m)
    ensures i == j
  {
    hide Sum;
    hide Low;
    hide IsMask;
    SumIs(b, j);
    SumMoved(b, i, j);
    Difference(Sum(b, i), b + j, i - j, m);
    SmallEqual(i, j, m);
  }
}
