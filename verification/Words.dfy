/** Machine words as numbers: bitwise operations, shifts with truncation, and the bits of a word, least significant first. */
module Words {

  const WORD32 := 0x1_0000_0000
  const WORD64 := 0x1_0000_0000_0000_0000

  type U8 = x: int | 0 <= x < 0x100
  type U32 = x: int | 0 <= x < WORD32
  type U64 = x: int | 0 <= x < WORD64

  function Pow2(k: nat): (p: int)
    ensures p >= 1
  {
    if k == 0 then 1 else 2 * Pow2(k - 1)
  }

  function Or(a: nat, b: nat): nat
    decreases a + b
  {
    if a == 0 && b == 0 then 0
    else (if a % 2 == 1 || b % 2 == 1 then 1 else 0) + 2 * Or(a / 2, b / 2)
  }

  function And(a: nat, b: nat): nat
    decreases a + b
  {
    if a == 0 || b == 0 then 0
    else (if a % 2 == 1 && b % 2 == 1 then 1 else 0) + 2 * And(a / 2, b / 2)
  }

  /** Left shift without a word size. */
  function Shl(x: nat, k: nat): nat {
    if k == 0 then x else 2 * Shl(x, k - 1)
  }

  function Shr(x: nat, k: nat): (r: nat)
    ensures r <= x
  {
    if k == 0 then x else Shr(x / 2, k - 1)
  }

  /** Left shift of a 64-bit word: what is shifted out is lost. */
  function Shl64(x: U64, k: nat): U64 {
    Shl(x, k) % WORD64
  }

  function Shr64(x: U64, k: nat): U64 {
    Shr(x, k)
  }

  function Low32(x: nat): U32 {
    x % WORD32
  }

  /** The low `k` bits of a number. */
  function Bits(x: nat, k: nat): (s: seq<bool>)
    ensures |s| == k
  {
    if k == 0 then [] else [x % 2 == 1] + Bits(x / 2, k - 1)
  }

  function FromBits(s: seq<bool>): nat {
    if s == [] then 0 else (if s[0] then 1 else 0) + 2 * FromBits(s[1..])
  }

  lemma {:induction false} FromBitsBound(s: seq<bool>)
    ensures FromBits(s) < Pow2(|s|)
  {
    if s != [] {
      FromBitsBound(s[1..]);
    }
  }

  lemma {:induction false} BitsFromBits(s: seq<bool>)
    ensures Bits(FromBits(s), |s|) == s
  {
    if s != [] {
      BitsFromBits(s[1..]);
    }
  }

  lemma {:induction false} FromBitsBits(x: nat, k: nat)
    requires x < Pow2(k)
    ensures FromBits(Bits(x, k)) == x
  {
    if k > 0 {
      FromBitsBits(x / 2, k - 1);
      assert Bits(x, k)[1..] == Bits(x / 2, k - 1);
    }
  }

  /** Shifting a number over `k` bits that are below it puts its bits behind them. */
  lemma {:induction false} BitsAppend(a: nat, k: nat, v: nat, b: nat)
    requires a < Pow2(k)
    ensures Bits(a + Shl(v, k), k + b) == Bits(a, k) + Bits(v, b)
  {
    if k == 0 {
      assert Bits(a, 0) + Bits(v, b) == Bits(v, b);
    } else {
      BitsAppend(a / 2, k - 1, v, b);
      assert (a + Shl(v, k)) / 2 == a / 2 + Shl(v, k - 1);
    }
  }

  lemma {:induction false} ShlBound(a: nat, k: nat, v: nat, b: nat)
    requires a < Pow2(k) && v < Pow2(b)
    ensures a + Shl(v, k) < Pow2(k + b)
  {
    if k > 0 {
      ShlBound(a / 2, k - 1, v, b);
    }
  }

  /** OR over bits that do not overlap is addition. */
  lemma {:induction false} OrIsPlus(a: nat, k: nat, v: nat)
    requires a < Pow2(k)
    ensures Or(a, Shl(v, k)) == a + Shl(v, k)
  {
    if k == 0 {
      OrZero(v);
    } else {
      OrIsPlus(a / 2, k - 1, v);
    }
  }

  lemma {:induction false} OrZero(v: nat)
    ensures Or(0, v) == v
  {
    if v > 0 {
      OrZero(v / 2);
    }
  }

  /** The mask keeps the low bits. */
  lemma {:induction false} AndMask(x: nat, k: nat)
    ensures And(x, Pow2(k) - 1) < Pow2(k)
    ensures Bits(And(x, Pow2(k) - 1), k) == Bits(x, k)
  {
    if k > 0 {
      AndMask(x / 2, k - 1);
      assert (Pow2(k) - 1) / 2 == Pow2(k - 1) - 1;
      if x == 0 {
        assert And(x / 2, Pow2(k - 1) - 1) == 0;
      }
    }
  }

  /** A value that fits is not changed by the mask. */
  lemma {:induction false} AndMaskFits(x: nat, k: nat)
    requires x < Pow2(k)
    ensures And(x, Pow2(k) - 1) == x
  {
    if k > 0 && x > 0 {
      AndMaskFits(x / 2, k - 1);
      assert (Pow2(k) - 1) / 2 == Pow2(k - 1) - 1;
    }
  }

  lemma {:induction false} PowMonotone(j: nat, k: nat)
    requires j <= k
    ensures Pow2(j) <= Pow2(k)
  {
    if j < k {
      PowMonotone(j, k - 1);
    }
  }

  lemma ShlStep(x: nat, k: nat)
    ensures Shl(x, k + 4) == 16 * Shl(x, k)
  {
    assert Shl(x, k + 2) == 4 * Shl(x, k);
  }

  lemma ShlWord(q: nat)
    ensures Shl(q, 32) == WORD32 * q
  {
    ShlStep(q, 0);
    ShlStep(q, 4);
    ShlStep(q, 8);
    ShlStep(q, 12);
    ShlStep(q, 16);
    ShlStep(q, 20);
    ShlStep(q, 24);
    ShlStep(q, 28);
  }

  lemma {:induction false} PowIsShl(k: nat)
    ensures Pow2(k) == Shl(1, k)
  {
    if k > 0 {
      PowIsShl(k - 1);
    }
  }

  lemma {:induction false} ShlShl(x: nat, j: nat, k: nat)
    ensures Shl(Shl(x, j), k) == Shl(x, j + k)
  {
    if k > 0 {
      ShlShl(x, j, k - 1);
    }
  }

  lemma PowWords()
    ensures Pow2(32) == WORD32 && Pow2(64) == WORD64
  {
    PowIsShl(32);
    PowIsShl(64);
    ShlWord(1);
    ShlWord(WORD32);
    ShlShl(1, 32, 32);
  }

  /** Dropping the low `k` bits. */
  lemma {:induction false} BitsShr(x: nat, k: nat, n: nat)
    requires k <= n
    ensures Bits(Shr(x, k), n - k) == Bits(x, n)[k..]
    ensures x < Pow2(n) ==> Shr(x, k) < Pow2(n - k)
  {
    if k > 0 {
      BitsShr(x / 2, k - 1, n - 1);
    }
  }

  /** Only the low 32 bits matter for what is flushed. */
  lemma BitsLow32(x: nat, n: nat)
    requires 32 <= n
    ensures Bits(Low32(x), 32) == Bits(x, n)[..32]
  {
    hide Bits, Shl, Pow2;
    PowWords();
    var r, q := x % WORD32, x / WORD32;
    ShlWord(q);
    BitsAppend(r, 32, q, n - 32);
    assert (Bits(r, 32) + Bits(q, n - 32))[..32] == Bits(r, 32);
  }

  lemma {:induction false} BitsPrefix(x: nat, j: nat, n: nat)
    requires j <= n
    ensures Bits(x, n)[..j] == Bits(x, j)
  {
    if j > 0 {
      BitsPrefix(x / 2, j - 1, n - 1);
      assert Bits(x, n)[..j] == [x % 2 == 1] + Bits(x / 2, n - 1)[..j - 1];
    }
  }

  /** OR fits into exactly the widths that both operands fit into. */
  lemma {:induction false} OrFits(a: nat, b: nat, k: nat)
    ensures Or(a, b) < Pow2(k) <==> a < Pow2(k) && b < Pow2(k)
  {
    if k == 0 {
      if a + b > 0 {
        OrAtLeast(a, b);
      }
    } else {
      OrFits(a / 2, b / 2, k - 1);
    }
  }

  lemma {:induction false} OrAtLeast(a: nat, b: nat)
    ensures Or(a, b) >= a && Or(a, b) >= b
    decreases a + b
  {
    if a + b > 0 {
      OrAtLeast(a / 2, b / 2);
    }
  }

  function Or64(a: U64, b: U64): U64 {
    PowWords();
    OrFits(a, b, 64);
    Or(a, b)
  }

  function Or32(a: U32, b: U32): U32 {
    PowWords();
    OrFits(a, b, 32);
    Or(a, b)
  }

  function And32(a: U32, b: nat): U32 {
    AndAtMost(a, b);
    And(a, b)
  }

  lemma {:induction false} AndAtMost(a: nat, b: nat)
    ensures And(a, b) <= a
    decreases a + b
  {
    if a > 0 && b > 0 {
      AndAtMost(a / 2, b / 2);
    }
  }

  /** The mask for a width (0 to 32 bits). */
  function MaskForBits(bits: nat): U32
    requires bits <= 32
  {
    PowWords();
    PowMonotone(bits, 32);
    if bits == 32 then 0xFFFF_FFFF else if bits == 0 then 0 else Pow2(bits) - 1
  }

  // ---- an accumulator as the bits that are pending in it ----

  /** Appending a value to an accumulator loses nothing: the accumulator never needs more than 62 bits. */
  lemma PushBits(pending: seq<bool>, v: nat, bits: nat)
    requires |pending| + bits <= 63 && v < Pow2(bits)
    ensures FromBits(pending) < WORD64 && v < WORD64
    ensures Or64(FromBits(pending), Shl64(v, |pending|)) == FromBits(pending + Bits(v, bits)) < Pow2(|pending| + bits)
  {
    hide Bits, Shl, Pow2, FromBits, Or;
    var a, k := FromBits(pending), |pending|;
    FromBitsBound(pending);
    PowWords();
    PowMonotone(k, 64);
    PowMonotone(bits, 64);
    PowMonotone(k + bits, 64);
    ShlBound(a, k, v, bits);
    OrIsPlus(a, k, v);
    BitsAppend(a, k, v, bits);
    BitsFromBits(pending);
    FromBitsBits(a + Shl(v, k), k + bits);
  }

  /** Flushing one word takes the 32 oldest bits and keeps the rest. */
  lemma FlushBits(pending: seq<bool>)
    requires |pending| <= 63
    ensures FromBits(pending) < WORD64
    ensures |pending| >= 32 ==> Low32(FromBits(pending)) == FromBits(pending[..32])
    ensures |pending| >= 32 ==> Shr64(FromBits(pending), 32) == FromBits(pending[32..])
    ensures |pending| < 32 ==> Low32(FromBits(pending)) == FromBits(pending)
  {
    hide Bits, Shr, Pow2, FromBits, Low32;
    var a, n := FromBits(pending), |pending|;
    FromBitsBound(pending);
    PowWords();
    PowMonotone(n, 64);
    BitsFromBits(pending);
    if n >= 32 {
      BitsLow32(a, n);
      FromBitsBits(Low32(a), 32);
      BitsShr(a, 32, n);
      FromBitsBits(Shr(a, 32), n - 32);
    } else {
      PowMonotone(n, 32);
      LowOfSmall(a);
    }
  }

  lemma LowOfSmall(a: nat)
    requires a < WORD32
    ensures Low32(a) == a
  {
  }

  /** Taking one value of `bits` bits out of an accumulator. */
  lemma TakeBits(pending: seq<bool>, bits: nat)
    requires bits <= |pending| <= 63 && bits <= 31
    ensures FromBits(pending) < WORD64
    ensures And32(Low32(FromBits(pending)), MaskForBits(bits)) == FromBits(pending[..bits])
    ensures Shr64(FromBits(pending), bits) == FromBits(pending[bits..])
  {
    hide Bits, Shr, FromBits, Low32, And;
    var a, n := FromBits(pending), |pending|;
    FromBitsBound(pending);
    PowWords();
    PowMonotone(n, 64);
    BitsFromBits(pending);
    BitsShr(a, bits, n);
    FromBitsBits(Shr(a, bits), n - bits);
    var low := Low32(a);
    AndMask(low, bits);
    FromBitsBits(And(low, Pow2(bits) - 1), bits);
    MaskIsPow(bits);
    LowPrefix(pending, bits);
  }

  lemma MaskIsPow(bits: nat)
    requires bits <= 32
    ensures MaskForBits(bits) == Pow2(bits) - 1
  {
    PowWords();
  }

  lemma LowPrefix(pending: seq<bool>, bits: nat)
    requires bits <= |pending| <= 63 && bits <= 31
    ensures Bits(Low32(FromBits(pending)), bits) == pending[..bits]
  {
    hide Bits, FromBits, Low32;
    var a, n := FromBits(pending), |pending|;
    BitsFromBits(pending);
    if n >= 32 {
      BitsLow32(a, n);
      BitsPrefix(Low32(a), bits, 32);
      assert Bits(Low32(a), 32)[..bits] == pending[..32][..bits] == pending[..bits];
    } else {
      FlushBits(pending);
      BitsPrefix(a, bits, n);
    }
  }
}
