/** The four-lane bit-packing format: what is written, as a function of the values (BitpackingBlockCodec.h). */
module BitpackingFormat {
  import opened Words

  const BLOCK_SIZE := 128

  /** One thing per lane. */
  datatype Quad<T> = Quad(x0: T, x1: T, x2: T, x3: T)

  // ---- bytes ----

  /** A 32-bit word in memory, low byte first. */
  function WordBytes(w: U32): (b: seq<U8>)
    ensures |b| == 4
  {
    var w1 := w / 256;
    var w2 := w1 / 256;
    [w % 256, w1 % 256, w2 % 256, w2 / 256]
  }

  function WordOf(b: seq<U8>): U32
    requires |b| == 4
  {
    var b0: int, b1: int, b2: int, b3: int := b[0], b[1], b[2], b[3];
    b0 + 256 * b1 + 65536 * b2 + 16777216 * b3
  }

  lemma WordRoundTrip(w: U32)
    ensures WordOf(WordBytes(w)) == w
  {
  }

  /** One 16-byte chunk: a word per lane. */
  function ChunkBytes(words: Quad<U32>): (b: seq<U8>)
    ensures |b| == 16
  {
    WordBytes(words.x0) + WordBytes(words.x1) + WordBytes(words.x2) + WordBytes(words.x3)
  }

  function RawBytes(values: seq<U32>): (b: seq<U8>)
    ensures |b| == 4 * |values|
  {
    if values == [] then [] else RawBytes(values[..|values| - 1]) + WordBytes(values[|values| - 1])
  }

  // ---- lanes ----

  /** Values past the end count as zero: they pad the last group. */
  function ValueAt(values: seq<U32>, i: nat): U32 {
    if i < |values| then values[i] else 0
  }

  /** The bits of one lane: the low bits of every fourth value, oldest first. */
  function LaneBits(values: seq<U32>, lane: nat, groups: nat, bits: nat): (s: seq<bool>)
    ensures |s| == groups * bits
  {
    if groups == 0 then []
    else
      assert groups * bits == (groups - 1) * bits + bits;
      LaneBits(values, lane, groups - 1, bits) + Bits(ValueAt(values, 4 * (groups - 1) + lane), bits)
  }

  type Lanes = q: Quad<seq<bool>> | |q.x1| == |q.x0| && |q.x2| == |q.x0| && |q.x3| == |q.x0| witness Quad([], [], [], [])

  function AllLanes(values: seq<U32>, groups: nat, bits: nat): (lanes: Lanes)
    ensures |lanes.x0| == groups * bits
  {
    Quad(LaneBits(values, 0, groups, bits), LaneBits(values, 1, groups, bits),
         LaneBits(values, 2, groups, bits), LaneBits(values, 3, groups, bits))
  }

  function Heads(q: Lanes, k: nat): (r: Lanes)
    requires k <= |q.x0|
    ensures |r.x0| == k
  {
    Quad(q.x0[..k], q.x1[..k], q.x2[..k], q.x3[..k])
  }

  function Tails(q: Lanes, k: nat): (r: Lanes)
    requires k <= |q.x0|
    ensures |r.x0| == |q.x0| - k
  {
    Quad(q.x0[k..], q.x1[k..], q.x2[k..], q.x3[k..])
  }

  function Join(a: Lanes, b: Lanes): (r: Lanes)
    ensures |r.x0| == |a.x0| + |b.x0|
  {
    Quad(a.x0 + b.x0, a.x1 + b.x1, a.x2 + b.x2, a.x3 + b.x3)
  }

  lemma WordFits(s: seq<bool>)
    requires |s| <= 32
    ensures FromBits(s) < WORD32
  {
    FromBitsBound(s);
    PowWords();
    PowMonotone(|s|, 32);
  }

  lemma JoinParts(a: Lanes, b: Lanes, k: nat)
    requires k <= |a.x0|
    ensures Heads(Join(a, b), k) == Heads(a, k) && Tails(Join(a, b), k) == Join(Tails(a, k), b)
  {
    assert (a.x0 + b.x0)[..k] == a.x0[..k] && (a.x0 + b.x0)[k..] == a.x0[k..] + b.x0;
    assert (a.x1 + b.x1)[..k] == a.x1[..k] && (a.x1 + b.x1)[k..] == a.x1[k..] + b.x1;
    assert (a.x2 + b.x2)[..k] == a.x2[..k] && (a.x2 + b.x2)[k..] == a.x2[k..] + b.x2;
    assert (a.x3 + b.x3)[..k] == a.x3[..k] && (a.x3 + b.x3)[k..] == a.x3[k..] + b.x3;
  }

  lemma JoinEmpty(a: Lanes, b: Lanes)
    requires |a.x0| == 0
    ensures Join(a, b) == b
  {
    assert a.x0 + b.x0 == b.x0 && a.x1 + b.x1 == b.x1 && a.x2 + b.x2 == b.x2 && a.x3 + b.x3 == b.x3;
  }

  /** At most 32 bits per lane as four words. */
  function LaneWords(q: Lanes): Quad<U32>
    requires |q.x0| <= 32
  {
    WordFits(q.x0);
    WordFits(q.x1);
    WordFits(q.x2);
    WordFits(q.x3);
    Quad(FromBits(q.x0), FromBits(q.x1), FromBits(q.x2), FromBits(q.x3))
  }

  /** The lanes cut into 32-bit words, one 16-byte chunk per word; the last word may be partial. */
  function Stream(lanes: Lanes): seq<U8>
    decreases |lanes.x0|
  {
    if |lanes.x0| == 0 then []
    else if |lanes.x0| < 32 then ChunkBytes(LaneWords(lanes))
    else ChunkBytes(LaneWords(Heads(lanes, 32))) + Stream(Tails(lanes, 32))
  }

  function WordCount(n: nat): nat {
    (n + 31) / 32
  }

  lemma {:induction false} StreamLength(lanes: Lanes)
    ensures |Stream(lanes)| == 16 * WordCount(|lanes.x0|)
    decreases |lanes.x0|
  {
    hide FromBits;
    if |lanes.x0| >= 32 {
      StreamLength(Tails(lanes, 32));
    }
  }

  /** A stream of whole words can be continued. */
  lemma {:induction false} StreamJoin(a: Lanes, b: Lanes)
    requires |a.x0| % 32 == 0
    ensures Stream(Join(a, b)) == Stream(a) + Stream(b)
    decreases |a.x0|
  {
    hide FromBits;
    if |a.x0| == 0 {
      JoinEmpty(a, b);
    } else {
      JoinParts(a, b, 32);
      StreamJoin(Tails(a, 32), b);
    }
  }

  // ---- the format ----

  function Groups(count: nat): nat {
    (count + 3) / 4
  }

  /** What is written for a list of values with a given width. */
  function Packed(values: seq<U32>, bits: nat): seq<U8>
    requires bits <= 32
  {
    if bits == 0 then []
    else if bits == 32 then RawBytes(values)
    else Stream(AllLanes(values, Groups(|values|), bits))
  }

  function CompressedBytes(count: nat, bits: nat): nat {
    if bits == 0 then 0
    else if bits == 32 then count * 4
    else
      var groups := (count + 3) / 4;
      var words32 := (groups * bits + 31) / 32;
      words32 * 16
  }

  /** The promised size is the written size, for every width. */
  lemma PackedLength(values: seq<U32>, bits: nat)
    requires bits <= 32
    ensures |Packed(values, bits)| == CompressedBytes(|values|, bits)
  {
    if 0 < bits < 32 {
      StreamLength(AllLanes(values, Groups(|values|), bits));
    }
  }

  lemma {:induction false} LaneBitsConcat(a: seq<U32>, b: seq<U32>, lane: nat, groupsA: nat, groupsB: nat, bits: nat)
    requires lane < 4 && |a| == 4 * groupsA
    ensures LaneBits(a + b, lane, groupsA + groupsB, bits) == LaneBits(a, lane, groupsA, bits) + LaneBits(b, lane, groupsB, bits)
  {
    hide Bits;
    if groupsB == 0 {
      LaneBitsPrefix(a, b, lane, groupsA, bits);
      LaneBitsNone(b, lane, bits);
    } else {
      hide LaneBits;
      LaneBitsConcat(a, b, lane, groupsA, groupsB - 1, bits);
      LaneBitsNext(a + b, lane, groupsA + groupsB - 1, bits);
      LaneBitsNext(b, lane, groupsB - 1, bits);
      var i := 4 * (groupsB - 1) + lane;
      assert ValueAt(a + b, |a| + i) == ValueAt(b, i);
      Associative(LaneBits(a, lane, groupsA, bits), LaneBits(b, lane, groupsB - 1, bits), Bits(ValueAt(b, i), bits));
    }
  }

  lemma Associative(x: seq<bool>, y: seq<bool>, z: seq<bool>)
    ensures (x + y) + z == x + (y + z)
  {
  }

  lemma LaneBitsNone(values: seq<U32>, lane: nat, bits: nat)
    ensures LaneBits(values, lane, 0, bits) == []
  {
  }

  lemma LaneBitsNext(values: seq<U32>, lane: nat, groups: nat, bits: nat)
    ensures LaneBits(values, lane, groups + 1, bits)
         == LaneBits(values, lane, groups, bits) + Bits(ValueAt(values, 4 * groups + lane), bits)
  {
  }

  lemma {:induction false} LaneBitsPrefix(a: seq<U32>, b: seq<U32>, lane: nat, groups: nat, bits: nat)
    requires lane < 4 && 4 * groups <= |a|
    ensures LaneBits(a + b, lane, groups, bits) == LaneBits(a, lane, groups, bits)
  {
    if groups > 0 {
      LaneBitsPrefix(a, b, lane, groups - 1, bits);
    }
  }

  lemma AllLanesConcat(a: seq<U32>, b: seq<U32>, groupsA: nat, groupsB: nat, bits: nat)
    requires |a| == 4 * groupsA
    ensures AllLanes(a + b, groupsA + groupsB, bits) == Join(AllLanes(a, groupsA, bits), AllLanes(b, groupsB, bits))
  {
    LaneBitsConcat(a, b, 0, groupsA, groupsB, bits);
    LaneBitsConcat(a, b, 1, groupsA, groupsB, bits);
    LaneBitsConcat(a, b, 2, groupsA, groupsB, bits);
    LaneBitsConcat(a, b, 3, groupsA, groupsB, bits);
  }

  lemma {:induction false} RawConcat(a: seq<U32>, b: seq<U32>)
    ensures RawBytes(a + b) == RawBytes(a) + RawBytes(b)
  {
    if b == [] {
      assert a + b == a;
    } else {
      assert (a + b)[..|a + b| - 1] == a + b[..|b| - 1];
      RawConcat(a, b[..|b| - 1]);
    }
  }

  /** Block splitting is invisible: whole blocks of 128 values can be packed on their own. */
  lemma BlocksInvisible(blocks: seq<U32>, rest: seq<U32>, bits: nat)
    requires bits <= 32 && |blocks| % BLOCK_SIZE == 0
    ensures Packed(blocks + rest, bits) == Packed(blocks, bits) + Packed(rest, bits)
  {
    if bits == 32 {
      RawConcat(blocks, rest);
    } else if bits > 0 {
      StreamBlocks(blocks, rest, |blocks| / BLOCK_SIZE, bits);
    }
  }

  lemma StreamBlocks(blocks: seq<U32>, rest: seq<U32>, n: nat, bits: nat)
    requires |blocks| == BLOCK_SIZE * n
    ensures Stream(AllLanes(blocks + rest, Groups(|blocks + rest|), bits))
         == Stream(AllLanes(blocks, Groups(|blocks|), bits)) + Stream(AllLanes(rest, Groups(|rest|), bits))
  {
    hide Stream, LaneBits;
    var groups := 32 * n;
    AllLanesConcat(blocks, rest, groups, Groups(|rest|), bits);
    assert groups * bits == 32 * (n * bits);
    StreamJoin(AllLanes(blocks, groups, bits), AllLanes(rest, Groups(|rest|), bits));
  }
}
