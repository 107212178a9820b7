/** Where each bit of each value stands in the packed bytes (BitpackingBlockCodec.h). */
module BitpackingLayout {
  import opened Words
  import opened BitpackingFormat

  // ---- bits of bytes ----

  lemma {:induction false} BitsPrefix(x: nat, a: nat, b: nat)
    ensures Bits(x, a + b)[..a] == Bits(x, a)
  {
    if a > 0 {
      BitsPrefix(x / 2, a - 1, b);
    }
  }

  lemma {:induction false} BitsBehind(x: nat, a: nat, b: nat)
    ensures Bits(Shr(x, a), b) == Bits(x, a + b)[a..]
  {
    if a > 0 {
      BitsBehind(x / 2, a - 1, b);
    }
  }

  lemma {:induction false} BitsOfZero(k: nat, i: nat)
    requires i < k
    ensures !Bits(0, k)[i]
  {
    if i > 0 {
      BitsOfZero(k - 1, i - 1);
    }
  }

  lemma Shr8(x: nat)
    ensures Shr(x, 8) == x / 256
  {
    Shr2(x);
    Shr2(x / 4);
    Shr2(x / 16);
    Shr2(x / 64);
    ShrShr(x, 2, 6);
    ShrShr(x / 4, 2, 4);
    ShrShr(x / 16, 2, 2);
  }

  lemma Shr2(x: nat)
    ensures Shr(x, 2) == x / 4
  {
    assert Shr(x / 2, 1) == Shr(x / 2 / 2, 0);
  }

  lemma {:induction false} ShrShr(x: nat, a: nat, b: nat)
    ensures Shr(x, a + b) == Shr(Shr(x, a), b)
  {
    if a > 0 {
      ShrShr(x / 2, a - 1, b);
    }
  }

  lemma LowByteBits(x: nat)
    ensures Bits(x % 256, 8) == Bits(x, 8)
  {
    ShlStep(x / 256, 0);
    ShlStep(x / 256, 4);
    assert Shl(x / 256, 8) == 256 * (x / 256);
    assert Pow2(4) == 16 && Pow2(8) == 256;
    BitsAppend(x % 256, 8, x / 256, 0);
    assert Bits(x % 256, 8) + Bits(x / 256, 0) == Bits(x % 256, 8);
  }

  lemma ByteBits(x: nat, rest: nat)
    ensures Bits(x % 256, 8) == Bits(x, 8 + rest)[..8] && Bits(x / 256, rest) == Bits(x, 8 + rest)[8..]
  {
    LowByteBits(x);
    BitsPrefix(x, 8, rest);
    BitsBehind(x, 8, rest);
    Shr8(x);
  }

  /** The four bytes of a word hold its bits in order. */
  lemma WordBits(w: U32, k: nat)
    requires k < 32
    ensures Bits(WordBytes(w)[k / 8], 8)[k % 8] == Bits(w, 32)[k]
  {
    hide Bits;
    var w1 := w / 256;
    var w2 := w1 / 256;
    ByteBits(w, 24);
    ByteBits(w1, 16);
    ByteBits(w2, 8);
    ByteBits(w2 / 256, 0);
    assert w2 / 256 % 256 == w2 / 256;
  }

  // ---- bits of chunks and streams ----

  function Lane(q: Lanes, lane: nat): (s: seq<bool>)
    requires lane < 4
    ensures |s| == |q.x0|
  {
    match lane case 0 => q.x0 case 1 => q.x1 case 2 => q.x2 case _ => q.x3
  }

  function WordAt(words: Quad<U32>, lane: nat): U32
    requires lane < 4
  {
    match lane case 0 => words.x0 case 1 => words.x1 case 2 => words.x2 case _ => words.x3
  }

  lemma ChunkAt(words: Quad<U32>, lane: nat, j: nat)
    requires lane < 4 && j < 4
    ensures ChunkBytes(words)[4 * lane + j] == WordBytes(WordAt(words, lane))[j]
  {
    hide WordBytes;
  }

  /** A number made from at most 32 bits has zeros behind them. */
  lemma NumberBit(s: seq<bool>, k: nat)
    requires |s| <= 32 && k < 32
    ensures Bits(FromBits(s), 32)[k] == (k < |s| && s[k])
  {
    var w := FromBits(s);
    var rest := 32 - |s|;
    BitsFromBits(s);
    BitsPrefix(w, |s|, rest);
    BitsBehind(w, |s|, rest);
    FromBitsBound(s);
    ShrSmall(w, |s|);
    hide Bits, FromBits;
    if k >= |s| {
      BitsOfZero(rest, k - |s|);
      assert Bits(w, 32)[|s|..][k - |s|] == Bits(w, 32)[k];
    } else {
      assert Bits(w, 32)[..|s|][k] == s[k];
    }
  }

  lemma LaneWord(q: Lanes, lane: nat)
    requires |q.x0| <= 32 && lane < 4
    ensures WordAt(LaneWords(q), lane) == FromBits(Lane(q, lane))
  {
    hide FromBits;
  }

  /** The bits of a lane of at most 32, and zeros behind them. */
  lemma ChunkBit(q: Lanes, lane: nat, k: nat)
    requires |q.x0| <= 32 && lane < 4 && k < 32
    ensures Bits(ChunkBytes(LaneWords(q))[4 * lane + k / 8], 8)[k % 8] == (k < |q.x0| && Lane(q, lane)[k])
  {
    hide LaneWords, ChunkBytes, WordBytes, FromBits, Bits, WordAt, Lane;
    LaneWord(q, lane);
    ChunkAt(LaneWords(q), lane, k / 8);
    WordBits(WordAt(LaneWords(q), lane), k);
    NumberBit(Lane(q, lane), k);
  }

  lemma {:induction false} ShrSmall(x: nat, k: nat)
    requires x < Pow2(k)
    ensures Shr(x, k) == 0
  {
    if k > 0 {
      ShrSmall(x / 2, k - 1);
    }
  }

  /** Where bit number `offset` of a lane stands: the lanes are cut into 32-bit words, and the four words of a round lie one
      behind the other, low byte first. */
  function Place(lane: nat, offset: nat): nat {
    16 * (offset / 32) + 4 * lane + offset % 32 / 8
  }

  predicate HasBit(bytes: seq<U8>, lane: nat, offset: nat, bit: bool) {
    Place(lane, offset) < |bytes| && Bits(bytes[Place(lane, offset)], 8)[offset % 8] == bit
  }

  lemma FirstChunkBit(chunk: seq<U8>, more: seq<U8>, lane: nat, offset: nat, bit: bool)
    requires |chunk| == 16 && lane < 4 && offset < 32 && Bits(chunk[4 * lane + offset / 8], 8)[offset % 8] == bit
    ensures HasBit(chunk + more, lane, offset, bit)
  {
    hide Bits;
  }

  lemma NextPlace(lane: nat, offset: nat)
    requires offset >= 32
    ensures Place(lane, offset) == 16 + Place(lane, offset - 32) && offset % 8 == (offset - 32) % 8
  {
  }

  lemma NextChunkBit(chunk: seq<U8>, more: seq<U8>, lane: nat, offset: nat, bit: bool)
    requires |chunk| == 16 && offset >= 32 && HasBit(more, lane, offset - 32, bit)
    ensures HasBit(chunk + more, lane, offset, bit)
  {
    hide Bits, Place;
    NextPlace(lane, offset);
    assert (chunk + more)[16 + Place(lane, offset - 32)] == more[Place(lane, offset - 32)];
  }

  /** Bit number `offset` of a lane, and zeros up to the end of the last word. */
  lemma {:induction false} StreamBit(lanes: Lanes, lane: nat, offset: nat)
    requires lane < 4 && offset < 32 * WordCount(|lanes.x0|)
    ensures HasBit(Stream(lanes), lane, offset, offset < |lanes.x0| && Lane(lanes, lane)[offset])
    decreases |lanes.x0|
  {
    hide Bits, LaneWords, ChunkBytes, HasBit, Place;
    if |lanes.x0| < 32 {
      var chunk := ChunkBytes(LaneWords(lanes));
      ChunkBit(lanes, lane, offset);
      FirstChunkBit(chunk, [], lane, offset, offset < |lanes.x0| && Lane(lanes, lane)[offset]);
      assert chunk + [] == chunk;
    } else {
      var chunk := ChunkBytes(LaneWords(Heads(lanes, 32)));
      if offset < 32 {
        ChunkBit(Heads(lanes, 32), lane, offset);
        assert Lane(Heads(lanes, 32), lane) == Lane(lanes, lane)[..32];
        FirstChunkBit(chunk, Stream(Tails(lanes, 32)), lane, offset, Lane(lanes, lane)[offset]);
      } else {
        StreamBit(Tails(lanes, 32), lane, offset - 32);
        assert Lane(Tails(lanes, 32), lane) == Lane(lanes, lane)[32..];
        NextChunkBit(chunk, Stream(Tails(lanes, 32)), lane, offset, offset < |lanes.x0| && Lane(lanes, lane)[offset]);
      }
    }
  }

  lemma {:induction false} LaneBit(values: seq<U32>, lane: nat, groups: nat, bits: nat, g: nat, k: nat)
    requires g < groups && k < bits
    ensures g * bits + k < groups * bits
    ensures LaneBits(values, lane, groups, bits)[g * bits + k] == Bits(ValueAt(values, 4 * g + lane), bits)[k]
  {
    hide Bits;
    assert groups * bits == (groups - 1) * bits + bits;
    if g < groups - 1 {
      LaneBit(values, lane, groups - 1, bits, g, k);
    }
  }

  /** The number of bit k of a value of group g in its lane. */
  function Offset(g: nat, bits: nat, k: nat): nat {
    g * bits + k
  }

  lemma WordsHold(n: nat, offset: nat)
    requires offset < n
    ensures offset < 32 * WordCount(n)
  {
  }

  /** The packed bytes of a width below 32 hold the bits of the four lanes. */
  lemma PackedBit(values: seq<U32>, bits: nat, lane: nat, g: nat, k: nat)
    requires 0 < bits < 32 && lane < 4 && g < Groups(|values|) && k < bits
    ensures HasBit(Packed(values, bits), lane, Offset(g, bits, k), Bits(ValueAt(values, 4 * g + lane), bits)[k])
  {
    hide Stream, Bits, LaneBits, HasBit, WordCount, Groups;
    var groups := Groups(|values|);
    var lanes := AllLanes(values, groups, bits);
    LaneBit(values, lane, groups, bits, g, k);
    WordsHold(groups * bits, g * bits + k);
    StreamBit(lanes, lane, g * bits + k);
    LaneOf(values, groups, bits, lane);
  }

  lemma LaneOf(values: seq<U32>, groups: nat, bits: nat, lane: nat)
    requires lane < 4
    ensures Lane(AllLanes(values, groups, bits), lane) == LaneBits(values, lane, groups, bits)
  {
    hide LaneBits;
  }

  /** Value number i is in lane i % 4, and bit k of it is bit number (i / 4) * bits + k of its lane. */
  lemma Layout(values: seq<U32>, bits: nat, i: nat, k: nat)
    requires 0 < bits < 32 && i < |values| && k < bits
    ensures HasBit(Packed(values, bits), i % 4, Offset(i / 4, bits, k), Bits(values[i], bits)[k])
  {
    hide Packed, Bits, HasBit;
    PackedBit(values, bits, i % 4, i / 4, k);
  }

  /** The values that fill up the last group are zero. */
  lemma PaddingIsZero(values: seq<U32>, bits: nat, i: nat, k: nat)
    requires 0 < bits < 32 && |values| <= i < 4 * Groups(|values|) && k < bits
    ensures HasBit(Packed(values, bits), i % 4, Offset(i / 4, bits, k), false)
  {
    hide Packed, Bits, HasBit;
    PackedBit(values, bits, i % 4, i / 4, k);
    BitsOfZero(bits, k);
  }

  /** And so is the rest of the last words. */
  lemma RestIsZero(values: seq<U32>, bits: nat, lane: nat, offset: nat)
    requires 0 < bits < 32 && lane < 4 && Groups(|values|) * bits <= offset < 32 * WordCount(Groups(|values|) * bits)
    ensures HasBit(Packed(values, bits), lane, offset, false)
  {
    hide Stream, HasBit, WordCount, Groups;
    StreamBit(AllLanes(values, Groups(|values|), bits), lane, offset);
  }

  /** At full width the values stand one behind the other. */
  lemma {:induction false} FullWidthLayout(values: seq<U32>, i: nat, k: nat)
    requires i < |values| && k < 32
    ensures Bits(Packed(values, 32)[4 * i + k / 8], 8)[k % 8] == Bits(values[i], 32)[k]
  {
    hide Bits, WordBytes;
    var last := |values| - 1;
    if i == last {
      WordBits(values[i], k);
    } else {
      FullWidthLayout(values[..last], i, k);
    }
  }
}
