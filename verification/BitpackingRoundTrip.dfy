/** Encoding and decoding together: nothing is lost (BitpackingBlockCodecImpl<false>). */
module BitpackingRoundTrip {
  import opened Options
  import opened Words
  import opened BitpackingFormat
  import opened Bitpacking
  import opened BitUnpacking

  // ---- the width ----

  function BitLength(x: nat): nat {
    if x == 0 then 0 else 1 + BitLength(x / 2)
  }

  lemma {:induction false} BitLengthExact(x: nat)
    ensures x < Pow2(BitLength(x)) && (x > 0 ==> BitLength(x) > 0 && Pow2(BitLength(x) - 1) <= x)
  {
    if x > 0 {
      BitLengthExact(x / 2);
    }
  }

  lemma {:induction false} BitLengthAtMost(x: nat, k: nat)
    requires x < Pow2(k)
    ensures BitLength(x) <= k
  {
    if x > 0 && k > 0 {
      BitLengthAtMost(x / 2, k - 1);
    }
  }

  /** __builtin_clz for a 32-bit word other than zero. */
  function CountLeadingZeros(x: U32): nat
    requires x != 0
  {
    PowWords();
    BitLengthAtMost(x, 32);
    32 - BitLength(x)
  }

  predicate AllFit(values: seq<U32>, bits: nat) {
    forall i :: 0 <= i < |values| ==> values[i] < Pow2(bits)
  }

  /** The OR of all values fits into exactly the widths that all of them fit into. */
  ghost predicate FitsLike(x: U32, values: seq<U32>) {
    forall k: nat :: x < Pow2(k) <==> AllFit(values, k)
  }

  lemma FitsLikeNext(x: U32, values: seq<U32>, v: U32)
    requires FitsLike(x, values)
    ensures FitsLike(Or32(x, v), values + [v])
  {
    hide Pow2, Or;
    forall k: nat ensures Or32(x, v) < Pow2(k) <==> AllFit(values + [v], k) {
      OrFits(x, v, k);
      AllFitNext(values, v, k);
    }
  }

  lemma AllFitNext(values: seq<U32>, v: U32, k: nat)
    ensures AllFit(values + [v], k) <==> AllFit(values, k) && v < Pow2(k)
  {
    var all := values + [v];
    assert all[|values|] == v;
    assert forall i :: 0 <= i < |values| ==> all[i] == values[i];
  }

  /** The smallest width into which every value fits. */
  method MaxbitsLength(input: seq<U32>) returns (bits: nat)
    ensures bits <= 32 && AllFit(input, bits)
    ensures bits > 0 ==> !AllFit(input, bits - 1)
  {
    hide Pow2, Or32, BitLength;
    var n := |input|;
    var offset := n / 4 * 4;
    var xored: U32 := 0;
    assert FitsLike(0, []);
    var k := 0;
    while k < offset
      invariant 0 <= k <= offset && k % 4 == 0
      invariant FitsLike(xored, input[..k])
    {
      FitsLikeNext(xored, input[..k], input[k]);
      xored := Or32(xored, input[k]);
      assert input[..k] + [input[k]] == input[..k + 1];
      FitsLikeNext(xored, input[..k + 1], input[k + 1]);
      xored := Or32(xored, input[k + 1]);
      assert input[..k + 1] + [input[k + 1]] == input[..k + 2];
      FitsLikeNext(xored, input[..k + 2], input[k + 2]);
      xored := Or32(xored, input[k + 2]);
      assert input[..k + 2] + [input[k + 2]] == input[..k + 3];
      FitsLikeNext(xored, input[..k + 3], input[k + 3]);
      xored := Or32(xored, input[k + 3]);
      assert input[..k + 3] + [input[k + 3]] == input[..k + 4];
      k := k + 4;
    }
    for i := offset to n
      invariant FitsLike(xored, input[..i])
    {
      FitsLikeNext(xored, input[..i], input[i]);
      xored := Or32(xored, input[i]);
      assert input[..i] + [input[i]] == input[..i + 1];
    }
    assert input[..n] == input;
    BitLengthExact(xored);
    bits := if xored == 0 then 0 else 32 - CountLeadingZeros(xored);
    assert bits == BitLength(xored) by {
      if xored == 0 { BitLengthOfZero(); }
    }
  }

  lemma BitLengthOfZero()
    ensures BitLength(0) == 0
  {
  }

  // ---- decoding what was encoded ----

  /** Every value cut down to the width. */
  function MaskedAll(values: seq<U32>, bits: nat): (s: seq<U32>)
    requires bits <= 32
    ensures |s| == |values|
  {
    seq(|values|, i requires 0 <= i < |values| => And32(values[i], MaskForBits(bits)))
  }

  lemma MaskedIsLowBits(v: U32, bits: nat)
    requires bits <= 32
    ensures And32(v, MaskForBits(bits)) == FromBits(Bits(v, bits))
  {
    hide Bits, FromBits, And, Pow2;
    MaskIsPow(bits);
    AndMask(v, bits);
    FromBitsBits(And(v, Pow2(bits) - 1), bits);
  }

  lemma ChunkRoundTrip(words: Quad<U32>, input: seq<U8>, p: nat)
    requires p + 16 <= |input| && input[p..p + 16] == ChunkBytes(words)
    ensures LoadChunk(input, p) == words
  {
    hide WordBytes, WordOf;
    Quarters(WordBytes(words.x0), WordBytes(words.x1), WordBytes(words.x2), WordBytes(words.x3));
    var b := input[p..p + 16];
    SubSlice(input, p, 16, 0, 4);
    SubSlice(input, p, 16, 4, 8);
    SubSlice(input, p, 16, 8, 12);
    SubSlice(input, p, 16, 12, 16);
    WordRoundTrip(words.x0);
    WordRoundTrip(words.x1);
    WordRoundTrip(words.x2);
    WordRoundTrip(words.x3);
  }

  lemma SubSlice(s: seq<U8>, p: nat, n: nat, i: nat, j: nat)
    requires p + n <= |s| && i <= j <= n
    ensures s[p..p + n][i..j] == s[p + i..p + j]
  {
    var a, b := s[p..p + n][i..j], s[p + i..p + j];
    forall k | 0 <= k < j - i ensures a[k] == b[k] {
      assert a[k] == s[p..p + n][i + k] == s[p + (i + k)];
      assert b[k] == s[(p + i) + k];
    }
  }

  lemma Quarters(a: seq<U8>, b: seq<U8>, c: seq<U8>, d: seq<U8>)
    requires |a| == |b| == |c| == |d| == 4
    ensures var all := a + b + c + d;
            all[0..4] == a && all[4..8] == b && all[8..12] == c && all[12..16] == d
  {
  }

  /** A written word read back starts with the bits that were written. */
  lemma WordKeepsBits(s: seq<bool>)
    requires |s| <= 32
    ensures FromBits(s) < WORD32 && Bits(FromBits(s), 32)[..|s|] == s
  {
    hide Bits, FromBits;
    WordFits(s);
    BitsPrefix(FromBits(s), |s|, 32);
    BitsFromBits(s);
  }

  lemma ChunkKeepsBits(q: Lanes)
    requires |q.x0| <= 32
    ensures Heads(ValueBits(LaneWords(q), 32), |q.x0|) == q
  {
    hide Bits, FromBits;
    WordKeepsBits(q.x0);
    WordKeepsBits(q.x1);
    WordKeepsBits(q.x2);
    WordKeepsBits(q.x3);
  }

  /** Reading a stream gives back the bits that were written. */
  lemma {:induction false} ReadStream(q: Lanes, input: seq<U8>, p: nat)
    requires p + |Stream(q)| <= |input| && input[p..p + |Stream(q)|] == Stream(q)
    ensures p + 16 * WordCount(|q.x0|) <= |input|
    ensures Heads(ReadLanes(input, p, WordCount(|q.x0|)), |q.x0|) == q
    decreases |q.x0|
  {
    hide Bits, FromBits, ChunkBytes;
    StreamLength(q);
    var chunks := WordCount(|q.x0|);
    if 0 < |q.x0| < 32 {
      ChunkRoundTrip(LaneWords(q), input, p);
      ChunkKeepsBits(q);
      HeadsOfJoin(ValueBits(LaneWords(q), 32), ReadLanes(input, p + 16, 0), |q.x0|);
    } else if |q.x0| >= 32 {
      var head, rest := Heads(q, 32), Tails(q, 32);
      StreamLength(rest);
      assert input[p..p + 16] == input[p..p + |Stream(q)|][..16] == ChunkBytes(LaneWords(head));
      assert input[p + 16..p + 16 + |Stream(rest)|] == input[p..p + |Stream(q)|][16..] == Stream(rest);
      ChunkRoundTrip(LaneWords(head), input, p);
      ChunkKeepsBits(head);
      HeadsOfWord(LaneWords(head));
      ReadStream(rest, input, p + 16);
      HeadsOfLonger(ValueBits(LaneWords(head), 32), ReadLanes(input, p + 16, chunks - 1), |rest.x0|);
      HeadsTails(q, 32);
    }
  }

  lemma HeadsOfWord(words: Quad<U32>)
    ensures Heads(ValueBits(words, 32), 32) == ValueBits(words, 32)
  {
    hide Bits;
    var q := ValueBits(words, 32);
    assert q.x0[..32] == q.x0 && q.x1[..32] == q.x1 && q.x2[..32] == q.x2 && q.x3[..32] == q.x3;
  }

  lemma HeadsOfJoin(a: Lanes, b: Lanes, k: nat)
    requires k <= |a.x0|
    ensures Heads(Join(a, b), k) == Heads(a, k)
  {
    assert (a.x0 + b.x0)[..k] == a.x0[..k] && (a.x1 + b.x1)[..k] == a.x1[..k];
    assert (a.x2 + b.x2)[..k] == a.x2[..k] && (a.x3 + b.x3)[..k] == a.x3[..k];
  }

  lemma HeadsOfLonger(a: Lanes, b: Lanes, k: nat)
    requires k <= |b.x0|
    ensures Heads(Join(a, b), |a.x0| + k) == Join(a, Heads(b, k))
  {
    var n := |a.x0|;
    assert (a.x0 + b.x0)[..n + k] == a.x0 + b.x0[..k] && (a.x1 + b.x1)[..n + k] == a.x1 + b.x1[..k];
    assert (a.x2 + b.x2)[..n + k] == a.x2 + b.x2[..k] && (a.x3 + b.x3)[..n + k] == a.x3 + b.x3[..k];
  }

  /** The bits of value `i` inside its lane. */
  lemma {:induction false} LaneBitsAt(values: seq<U32>, lane: nat, groups: nat, bits: nat, g: nat)
    requires g < groups
    ensures g * bits + bits <= groups * bits
    ensures LaneBits(values, lane, groups, bits)[g * bits..g * bits + bits] == Bits(ValueAt(values, 4 * g + lane), bits)
  {
    hide Bits;
    NextGroupFits(bits, g, groups);
    assert groups * bits == (groups - 1) * bits + bits;
    var init := LaneBits(values, lane, groups - 1, bits);
    if g < groups - 1 {
      LaneBitsAt(values, lane, groups - 1, bits, g);
      assert LaneBits(values, lane, groups, bits)[g * bits..g * bits + bits] == init[g * bits..g * bits + bits];
    }
  }

  lemma DecodedIsMasked(values: seq<U32>, q: Lanes, bits: nat, i: nat)
    requires 1 <= bits <= 31 && i < |values|
    requires Groups(|values|) * bits <= |q.x0|
    requires Heads(q, Groups(|values|) * bits) == AllLanes(values, Groups(|values|), bits)
    ensures i / 4 * bits + bits <= |q.x0|
    ensures Decoded(q, bits, i) == And32(values[i], MaskForBits(bits))
  {
    hide Bits, FromBits, LaneBits;
    var groups, g, lane := Groups(|values|), i / 4, i % 4;
    ValueInside(i, |values|, bits);
    LaneBitsAt(values, lane, groups, bits, g);
    MaskedIsLowBits(values[i], bits);
    var all := AllLanes(values, groups, bits);
    assert LaneOf(all, lane) == LaneOf(q, lane)[..groups * bits];
    assert LaneOf(q, lane)[g * bits..g * bits + bits] == LaneOf(all, lane)[g * bits..g * bits + bits];
  }

  /** Decoding what was encoded gives every value masked to the width. */
  lemma UnpackedPacked(values: seq<U32>, bits: nat, input: seq<U8>, p: nat)
    requires 1 <= bits <= 32
    requires p + |Packed(values, bits)| <= |input| && input[p..p + |Packed(values, bits)|] == Packed(values, bits)
    ensures p + CompressedBytes(|values|, bits) <= |input|
    ensures Unpacked(input, p, |values|, bits) == MaskedAll(values, bits)
  {
    PackedLength(values, bits);
    if bits == 32 {
      RawRoundTrip(values, input, p);
    } else {
      hide Stream, ReadLanes, MaskForBits;
      var groups := Groups(|values|);
      var all := AllLanes(values, groups, bits);
      ReadStream(all, input, p);
      var q := ReadLanes(input, p, WordCount(groups * bits));
      UnpackedIsLanes(input, p, |values|, bits);
      forall i | 0 <= i < |values|
        ensures Unpacked(input, p, |values|, bits)[i] == MaskedAll(values, bits)[i]
      {
        DecodedIsMasked(values, q, bits, i);
      }
    }
  }

  lemma RawRoundTrip(values: seq<U32>, input: seq<U8>, p: nat)
    requires p + 4 * |values| <= |input| && input[p..p + 4 * |values|] == RawBytes(values)
    ensures p + CompressedBytes(|values|, 32) <= |input|
    ensures Unpacked(input, p, |values|, 32) == MaskedAll(values, 32)
  {
    hide WordBytes, WordOf, MaskForBits, Unpacked, CompressedBytes, RawBytes;
    RawSize(|values|);
    RawUnpacked(input, p, |values|);
    forall i | 0 <= i < |values|
      ensures Unpacked(input, p, |values|, 32)[i] == MaskedAll(values, 32)[i]
    {
      RawWordAt(values, input, p, i);
      MaskOfWord(values[i]);
    }
  }

  lemma RawWordAt(values: seq<U32>, input: seq<U8>, p: nat, i: nat)
    requires p + 4 * |values| <= |input| && input[p..p + 4 * |values|] == RawBytes(values) && i < |values|
    ensures WordOf(input[p + 4 * i..p + 4 * i + 4]) == values[i]
  {
    hide WordBytes, WordOf, RawBytes;
    RawAt(values, i);
    SubSlice(input, p, 4 * |values|, 4 * i, 4 * i + 4);
    WordRoundTrip(values[i]);
  }

  lemma MaskOfWord(v: U32)
    ensures And32(v, MaskForBits(32)) == v
  {
    PowWords();
    AndMaskFits(v, 32);
  }

  lemma {:induction false} RawAt(values: seq<U32>, i: nat)
    requires i < |values|
    ensures RawBytes(values)[4 * i..4 * i + 4] == WordBytes(values[i])
  {
    hide WordBytes;
    var last := |values| - 1;
    if i < last {
      RawAt(values[..last], i);
      assert RawBytes(values)[4 * i..4 * i + 4] == RawBytes(values[..last])[4 * i..4 * i + 4];
    }
  }

  /** Values that fit the width are not changed by it. */
  lemma MaskLosesNothing(values: seq<U32>, bits: nat)
    requires bits <= 32 && AllFit(values, bits)
    ensures MaskedAll(values, bits) == values
  {
    forall i | 0 <= i < |values| ensures And32(values[i], MaskForBits(bits)) == values[i] {
      MaskIsPow(bits);
      AndMaskFits(values[i], bits);
    }
  }

  /** `stream` stands in the input at position `p`. */
  predicate StandsAt(input: seq<U8>, p: nat, stream: seq<U8>) {
    p + |stream| <= |input| && input[p..p + |stream|] == stream
  }

  /** Decoding consumes exactly the bytes that encoding these values wrote and yields each value masked to the width;
      for width zero the output stays as it was. */
  method UnpackingLength(
      input: seq<U8>, start: nat, length: nat, out: array<U32>, at: nat, bits: nat, ghost values: seq<U32>)
    returns (end: nat)
    requires bits <= 32 && |values| == length && at + length <= out.Length
    requires StandsAt(input, start, Packed(values, bits))
    modifies out
    ensures end == start + |Packed(values, bits)|
    ensures out[..] == if bits == 0 then old(out[..]) else Put(old(out[..]), at, MaskedAll(values, bits))
  {
    hide Packed, CompressedBytes, MaskedAll, StandsAt;
    var blocks := length / BLOCK_SIZE;
    ghost var before := out[..];
    end := start;
    var written := 0;
    PackedNothing(bits);
    for i := 0 to blocks
      invariant written == BLOCK_SIZE * i
      invariant end == start + |Packed(values[..written], bits)|
      invariant out[..] == if bits == 0 then before else Put(before, at, MaskedAll(values[..written], bits))
    {
      end := UnpackBlock(input, end, out, at, bits, values, written, written + BLOCK_SIZE, start, before);
      written := written + BLOCK_SIZE;
    }
    if length % BLOCK_SIZE == 0 {
      assert values[..written] == values;
      return;
    }
    end := UnpackBlock(input, end, out, at, bits, values, written, length, start, before);
    assert values[..length] == values;
  }

  lemma MaskedConcat(a: seq<U32>, b: seq<U32>, bits: nat)
    requires bits <= 32
    ensures MaskedAll(a + b, bits) == MaskedAll(a, bits) + MaskedAll(b, bits)
  {
  }

  /** The stream of a block stands behind the stream of what comes before it. */
  lemma BlockStandsAt(input: seq<U8>, start: nat, values: seq<U32>, from: nat, to: nat, bits: nat)
    requires bits <= 32 && StandsAt(input, start, Packed(values, bits))
    requires from % BLOCK_SIZE == 0 && from <= to <= |values| && (to % BLOCK_SIZE == 0 || to == |values|)
    ensures Packed(values[..to], bits) == Packed(values[..from], bits) + Packed(values[from..to], bits)
    ensures StandsAt(input, start + |Packed(values[..from], bits)|, Packed(values[from..to], bits))
  {
    hide Packed;
    RoomForBlock(values, from, to, bits);
    var head, block, all := Packed(values[..from], bits), Packed(values[from..to], bits), Packed(values, bits);
    if to < |values| {
      assert values == values[..to] + values[to..];
      BlocksInvisible(values[..to], values[to..], bits);
    } else {
      assert values[..to] == values;
    }
    assert all[|head|..|head| + |block|] == block;
    SubSlice(input, start, |all|, |head|, |head| + |block|);
  }

  method UnpackBlock(
    input: seq<U8>, p: nat, out: array<U32>, at: nat, bits: nat, ghost values: seq<U32>, from: nat, to: nat,
    ghost start: nat, ghost before: seq<U32>)
    returns (end: nat)
    requires bits <= 32 && from % BLOCK_SIZE == 0 && from < to <= |values| && at + |values| <= out.Length == |before|
    requires to == from + BLOCK_SIZE || (to == |values| && to < from + BLOCK_SIZE)
    requires StandsAt(input, start, Packed(values, bits))
    requires p == start + |Packed(values[..from], bits)|
    requires out[..] == if bits == 0 then before else Put(before, at, MaskedAll(values[..from], bits))
    modifies out
    ensures end == start + |Packed(values[..to], bits)|
    ensures out[..] == if bits == 0 then before else Put(before, at, MaskedAll(values[..to], bits))
  {
    hide Packed, CompressedBytes, MaskedAll, Unpacked;
    ghost var block := values[from..to];
    BlockStandsAt(input, start, values, from, to, bits);
    PackedLength(block, bits);
    assert values[..to] == values[..from] + block;
    if bits > 0 {
      UnpackedPacked(block, bits, input, p);
      MaskedConcat(values[..from], block, bits);
      PutPut(before, at, MaskedAll(values[..from], bits), MaskedAll(block, bits));
    }
    if to == from + BLOCK_SIZE {
      end := UnpackFixed(bits, input, p, 32, out, at + from);
    } else {
      end := UnpackTail(bits, input, p, to - from, out, at + from);
    }
  }

  /** The public entry point; None where the source throws for a width over 32. The destination spans move past what was
      written. */
  method Encode(input: seq<U32>, maxBits: nat, out: array<U8>, start: nat) returns (written: Option<nat>)
    requires maxBits <= 32 ==> start + CompressedBytes(|input|, maxBits) <= out.Length
    modifies out
    ensures written.None? <==> maxBits > 32
    ensures written.None? ==> out[..] == old(out[..])
    ensures written.Some? ==> start + written.value <= out.Length
    ensures written.Some? ==>
      && written.value == CompressedBytes(|input|, maxBits) == |Packed(input, maxBits)|
      && out[..] == Put(old(out[..]), start, Packed(input, maxBits))
  {
    if maxBits > 32 {
      return None;
    }
    var end := PackingLength(input, out, start, maxBits);
    PackedLength(input, maxBits);
    return Some(end - start);
  }

  /** The compressed size and the width for a list of values. */
  method CalculateNeededBytesAndMaxBits(data: seq<U32>) returns (bytes: nat, bits: nat)
    ensures bits <= 32 && AllFit(data, bits) && (bits > 0 ==> !AllFit(data, bits - 1))
    ensures bytes == |Packed(data, bits)|
  {
    bits := MaxbitsLength(data);
    bytes := CompressedBytes(|data|, bits);
    PackedLength(data, bits);
  }

  /** Encode with any width and decode into a zeroed buffer: every value comes back masked to the width, and the decoder
      stops exactly where the encoder did. */
  method RoundTrip(values: seq<U32>, bits: nat) returns (decoded: seq<U32>, written: nat, read: nat)
    requires bits <= 32
    ensures decoded == MaskedAll(values, bits)
    ensures read == written == CompressedBytes(|values|, bits)
  {
    hide Packed, CompressedBytes, MaskedAll;
    var size := CompressedBytes(|values|, bits);
    var buffer := new U8[size](_ => 0);
    ghost var empty := buffer[..];
    written := PackingLength(values, buffer, 0, bits);
    var out := new U32[|values|](_ => 0);
    ghost var zeros := out[..];
    var stream := buffer[..];
    assert StandsAt(stream, 0, Packed(values, bits));
    read := UnpackingLength(stream, 0, |values|, out, 0, bits, values);
    if bits == 0 {
      MaskedToZero(values);
      assert zeros == MaskedAll(values, 0);
    }
    decoded := out[..];
  }

  lemma MaskedToZero(values: seq<U32>)
    ensures forall i :: 0 <= i < |values| ==> MaskedAll(values, 0)[i] == 0
  {
    forall i | 0 <= i < |values| ensures And32(values[i], MaskForBits(0)) == 0 {
      assert And(values[i], 0) == 0;
    }
  }

  /** With the width that the codec chooses itself, nothing at all is lost. */
  method LosslessRoundTrip(values: seq<U32>) returns (decoded: seq<U32>)
    ensures decoded == values
  {
    var bytes, bits := CalculateNeededBytesAndMaxBits(values);
    var written, read;
    decoded, written, read := RoundTrip(values, bits);
    MaskLosesNothing(values, bits);
  }
}
