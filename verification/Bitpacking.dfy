/** Packing and unpacking loops over word accumulators (BitpackingBlockCodecImpl<false>). */
module Bitpacking {
  import opened Words
  import opened BitpackingFormat

  /** `s` with `bytes` written over it at position `p`. */
  function Put<T>(s: seq<T>, p: nat, bytes: seq<T>): seq<T>
    requires p + |bytes| <= |s|
  {
    s[..p] + bytes + s[p + |bytes|..]
  }

  lemma PutPut<T>(s: seq<T>, p: nat, a: seq<T>, b: seq<T>)
    requires p + |a| + |b| <= |s|
    ensures Put(Put(s, p, a), p + |a|, b) == Put(s, p, a + b)
  {
  }

  method Copy(out: array<U8>, p: nat, bytes: seq<U8>)
    requires p + |bytes| <= out.Length
    modifies out
    ensures out[..] == Put(old(out[..]), p, bytes)
  {
    for i := 0 to |bytes|
      invariant forall k :: 0 <= k < out.Length && !(p <= k < p + i) ==> out[k] == old(out[k])
      invariant forall k :: p <= k < p + i ==> out[k] == bytes[k - p]
    {
      out[p + i] := bytes[i];
    }
  }

  // ---- packing ----

  /** The four accumulators that hold these pending bits. */
  function Accumulators(pending: Lanes): Quad<U64>
    requires |pending.x0| <= 63
  {
    FlushBits(pending.x0);
    FlushBits(pending.x1);
    FlushBits(pending.x2);
    FlushBits(pending.x3);
    Quad(FromBits(pending.x0), FromBits(pending.x1), FromBits(pending.x2), FromBits(pending.x3))
  }

  function ValueBits(v: Quad<U32>, bits: nat): (q: Lanes)
    ensures |q.x0| == bits
  {
    Quad(Bits(v.x0, bits), Bits(v.x1, bits), Bits(v.x2, bits), Bits(v.x3, bits))
  }

  function Masked(v: Quad<U32>, bits: nat): Quad<U32>
    requires bits <= 32
  {
    var m := MaskForBits(bits);
    Quad(And32(v.x0, m), And32(v.x1, m), And32(v.x2, m), And32(v.x3, m))
  }

  lemma MaskedBits(v: Quad<U32>, bits: nat)
    requires bits <= 31
    ensures ValueBits(Masked(v, bits), bits) == ValueBits(v, bits)
    ensures Masked(v, bits).x0 < Pow2(bits) && Masked(v, bits).x1 < Pow2(bits)
    ensures Masked(v, bits).x2 < Pow2(bits) && Masked(v, bits).x3 < Pow2(bits)
  {
    hide Bits, And, Pow2;
    MaskIsPow(bits);
    AndMask(v.x0, bits);
    AndMask(v.x1, bits);
    AndMask(v.x2, bits);
    AndMask(v.x3, bits);
  }

  function GroupAt(values: seq<U32>, i: nat): Quad<U32> {
    Quad(ValueAt(values, 4 * i), ValueAt(values, 4 * i + 1), ValueAt(values, 4 * i + 2), ValueAt(values, 4 * i + 3))
  }

  lemma AllLanesNext(values: seq<U32>, i: nat, bits: nat)
    ensures AllLanes(values, i + 1, bits) == Join(AllLanes(values, i, bits), ValueBits(GroupAt(values, i), bits))
  {
  }

  /** Bits already written and bits still pending, together the lanes of the first `i` groups. */
  ghost predicate PackState(
      values: seq<U32>, i: nat, bits: nat, acc: Quad<U64>, accBits: nat, flushed: Lanes, pending: Lanes) {
    && AllLanes(values, i, bits) == Join(flushed, pending)
    && |flushed.x0| % 32 == 0
    && |pending.x0| == accBits < 32
    && acc == Accumulators(pending)
  }

  /** Append one group to the accumulators; when 32 bits are there, flush one word per lane. No accumulator ever holds
      more than 62 bits, so nothing is shifted out of its 64. */
  method AppendGroup(
      acc: Quad<U64>, accBits: nat, v: Quad<U32>, bits: nat, out: array<U8>, p: nat, ghost pending: Lanes)
    returns (acc': Quad<U64>, accBits': nat, p': nat, ghost pending': Lanes)
    requires 1 <= bits <= 31 && |pending.x0| == accBits < 32 && acc == Accumulators(pending)
    requires accBits + bits >= 32 ==> p + 16 <= out.Length
    modifies out
    ensures var all := Join(pending, ValueBits(v, bits));
            if |all.x0| >= 32 then
              && pending' == Tails(all, 32) && p' == p + 16 <= out.Length
              && out[..] == Put(old(out[..]), p, ChunkBytes(LaneWords(Heads(all, 32))))
            else
              pending' == all && p' == p && out[..] == old(out[..])
    ensures |pending'.x0| == accBits' < 32 && acc' == Accumulators(pending')
  {
    hide Bits, FromBits, Pow2, Low32, Shr64, Shl64, Or64, And32;
    var m := Masked(v, bits);
    ghost var all := Join(pending, ValueBits(v, bits));
    MaskedBits(v, bits);
    PushBits(pending.x0, m.x0, bits);
    PushBits(pending.x1, m.x1, bits);
    PushBits(pending.x2, m.x2, bits);
    PushBits(pending.x3, m.x3, bits);
    acc' := Quad(Or64(acc.x0, Shl64(m.x0, accBits)), Or64(acc.x1, Shl64(m.x1, accBits)),
                 Or64(acc.x2, Shl64(m.x2, accBits)), Or64(acc.x3, Shl64(m.x3, accBits)));
    accBits', p', pending' := accBits + bits, p, all;
    assert acc' == Accumulators(all);
    if accBits' >= 32 {
      FlushBits(all.x0);
      FlushBits(all.x1);
      FlushBits(all.x2);
      FlushBits(all.x3);
      var words := Quad(Low32(acc'.x0), Low32(acc'.x1), Low32(acc'.x2), Low32(acc'.x3));
      assert words == LaneWords(Heads(all, 32));
      Copy(out, p, ChunkBytes(words));
      acc' := Quad(Shr64(acc'.x0, 32), Shr64(acc'.x1, 32), Shr64(acc'.x2, 32), Shr64(acc'.x3, 32));
      accBits', p', pending' := accBits' - 32, p + 16, Tails(all, 32);
    }
  }

  lemma StreamOfWord(q: Lanes)
    requires |q.x0| == 32
    ensures Stream(q) == ChunkBytes(LaneWords(q))
  {
    hide FromBits;
    assert q.x0[..32] == q.x0 && q.x1[..32] == q.x1 && q.x2[..32] == q.x2 && q.x3[..32] == q.x3;
    assert Heads(q, 32) == q;
    assert Stream(Tails(q, 32)) == [];
  }

  lemma JoinAssoc(a: Lanes, b: Lanes, c: Lanes)
    ensures Join(Join(a, b), c) == Join(a, Join(b, c))
  {
    assert a.x0 + b.x0 + c.x0 == a.x0 + (b.x0 + c.x0);
    assert a.x1 + b.x1 + c.x1 == a.x1 + (b.x1 + c.x1);
    assert a.x2 + b.x2 + c.x2 == a.x2 + (b.x2 + c.x2);
    assert a.x3 + b.x3 + c.x3 == a.x3 + (b.x3 + c.x3);
  }

  lemma HeadsTails(q: Lanes, k: nat)
    requires k <= |q.x0|
    ensures Join(Heads(q, k), Tails(q, k)) == q
  {
    assert q.x0[..k] + q.x0[k..] == q.x0 && q.x1[..k] + q.x1[k..] == q.x1;
    assert q.x2[..k] + q.x2[k..] == q.x2 && q.x3[..k] + q.x3[k..] == q.x3;
  }

  /** One group further: what was flushed, what is pending, and the bytes written for it. */
  lemma PackStateNext(values: seq<U32>, i: nat, bits: nat, flushed: Lanes, pending: Lanes)
    returns (flushed': Lanes)
    requires AllLanes(values, i, bits) == Join(flushed, pending) && |flushed.x0| % 32 == 0
    ensures var all := Join(pending, ValueBits(GroupAt(values, i), bits));
            && flushed' == (if |all.x0| >= 32 then Join(flushed, Heads(all, 32)) else flushed)
            && AllLanes(values, i + 1, bits) == Join(flushed', if |all.x0| >= 32 then Tails(all, 32) else all)
            && |flushed'.x0| % 32 == 0
            && Stream(flushed') == Stream(flushed) + (if |all.x0| >= 32 then ChunkBytes(LaneWords(Heads(all, 32))) else [])
  {
    hide Stream, FromBits, LaneBits, Bits, LaneWords, ChunkBytes, AllLanes, ValueBits;
    var all := Join(pending, ValueBits(GroupAt(values, i), bits));
    AllLanesNext(values, i, bits);
    JoinAssoc(flushed, pending, ValueBits(GroupAt(values, i), bits));
    flushed' := flushed;
    if |all.x0| >= 32 {
      flushed' := Join(flushed, Heads(all, 32));
      HeadsTails(all, 32);
      JoinAssoc(flushed, Heads(all, 32), Tails(all, 32));
      StreamJoin(flushed, Heads(all, 32));
      StreamOfWord(Heads(all, 32));
    }
  }

  /** The state of a packing loop after `i` groups: accumulators, write position and buffer. */
  ghost predicate Packing(
    values: seq<U32>, i: nat, bits: nat, acc: Quad<U64>, accBits: nat, p: nat,
    now: seq<U8>, start: nat, before: seq<U8>, flushed: Lanes, pending: Lanes)
  {
    && PackState(values, i, bits, acc, accBits, flushed, pending)
    && p == start + |Stream(flushed)| <= |before| == |now|
    && now == Put(before, start, Stream(flushed))
  }

  /** There is room for the next word as long as there is room for all groups. */
  lemma RoomForWord(flushed: nat, pending: nat, i: nat, bits: nat, total: nat)
    requires flushed % 32 == 0 && flushed + pending == i * bits && pending + bits >= 32 && i < total
    ensures flushed / 32 + 1 <= WordCount(total * bits)
  {
    NextGroupFits(bits, i, total);
  }

  lemma NextGroupFits(bits: nat, i: nat, groups: nat)
    requires i < groups
    ensures i * bits + bits <= groups * bits
  {
    assert groups * bits - i * bits == (groups - i) * bits;
    assert (groups - i) * bits >= bits by {
      assert (groups - i) * bits == (groups - i - 1) * bits + bits;
    }
  }

  lemma WholeWordCount(n: nat)
    requires n % 32 == 0
    ensures WordCount(n) == n / 32
  {
  }

  method PackGroup(
    values: seq<U32>, i: nat, bits: nat, acc: Quad<U64>, accBits: nat, out: array<U8>, p: nat,
    ghost start: nat, ghost before: seq<U8>, ghost flushed: Lanes, ghost pending: Lanes, ghost total: nat)
    returns (acc': Quad<U64>, accBits': nat, p': nat, ghost flushed': Lanes, ghost pending': Lanes)
    requires 1 <= bits <= 31 && i < total && start + 16 * WordCount(total * bits) <= |before|
    requires Packing(values, i, bits, acc, accBits, p, out[..], start, before, flushed, pending)
    modifies out
    ensures Packing(values, i + 1, bits, acc', accBits', p', out[..], start, before, flushed', pending')
  {
    hide Stream, LaneBits, FromBits, Bits, Accumulators, AllLanes, WordCount, LaneWords, ValueBits;
    StreamLength(flushed);
    WholeWordCount(|flushed.x0|);
    if accBits + bits >= 32 {
      RoomForWord(|flushed.x0|, accBits, i, bits, total);
    }
    flushed' := PackStateNext(values, i, bits, flushed, pending);
    acc', accBits', p', pending' := AppendGroup(acc, accBits, GroupAt(values, i), bits, out, p, pending);
    ghost var all := Join(pending, ValueBits(GroupAt(values, i), bits));
    if |all.x0| >= 32 {
      PutPut(before, start, Stream(flushed), ChunkBytes(LaneWords(Heads(all, 32))));
    }
  }

  /** The loop over whole groups, from empty accumulators. */
  method PackGroups(values: seq<U32>, groups: nat, bits: nat, out: array<U8>, start: nat, ghost total: nat)
    returns (acc: Quad<U64>, accBits: nat, p: nat, ghost flushed: Lanes, ghost pending: Lanes)
    requires 1 <= bits <= 31 && groups <= total && start + 16 * WordCount(total * bits) <= out.Length
    modifies out
    ensures Packing(values, groups, bits, acc, accBits, p, out[..], start, old(out[..]), flushed, pending)
  {
    ghost var before := out[..];
    acc, accBits, p := Quad(0, 0, 0, 0), 0, start;
    flushed, pending := Quad([], [], [], []), Quad([], [], [], []);
    assert AllLanes(values, 0, bits) == Join(flushed, pending);
    assert acc == Accumulators(pending);
    hide PackState, Accumulators;
    for i := 0 to groups
      invariant Packing(values, i, bits, acc, accBits, p, out[..], start, before, flushed, pending)
    {
      acc, accBits, p, flushed, pending :=
        PackGroup(values, i, bits, acc, accBits, out, p, start, before, flushed, pending, total);
    }
  }

  /** Flush the last, partial word. */
  method FlushRest(
    ghost values: seq<U32>, ghost groups: nat, ghost bits: nat, acc: Quad<U64>, accBits: nat, out: array<U8>, p: nat,
    ghost start: nat, ghost before: seq<U8>, ghost flushed: Lanes, ghost pending: Lanes)
    returns (end: nat)
    requires 1 <= bits <= 31 && start + 16 * WordCount(groups * bits) <= |before|
    requires Packing(values, groups, bits, acc, accBits, p, out[..], start, before, flushed, pending)
    modifies out
    ensures end == start + |Stream(AllLanes(values, groups, bits))| <= |before| == out.Length
    ensures out[..] == Put(before, start, Stream(AllLanes(values, groups, bits)))
  {
    hide LaneBits, FromBits;
    end := p;
    StreamJoin(flushed, pending);
    StreamLength(AllLanes(values, groups, bits));
    if accBits != 0 {
      FlushBits(pending.x0);
      FlushBits(pending.x1);
      FlushBits(pending.x2);
      FlushBits(pending.x3);
      var words := Quad(Low32(acc.x0), Low32(acc.x1), Low32(acc.x2), Low32(acc.x3));
      assert words == LaneWords(pending);
      assert Stream(pending) == ChunkBytes(words);
      PutPut(before, start, Stream(flushed), Stream(pending));
      Copy(out, p, ChunkBytes(words));
      end := p + 16;
    } else {
      assert Stream(pending) == [];
      assert Stream(flushed) + [] == Stream(flushed);
    }
  }

  lemma PackedIsStream(values: seq<U32>, bits: nat)
    requires bits <= 31
    ensures bits >= 1 ==> Packed(values, bits) == Stream(AllLanes(values, Groups(|values|), bits))
    ensures bits >= 1 ==> CompressedBytes(|values|, bits) == 16 * WordCount(Groups(|values|) * bits)
  {
  }

  lemma PackedTrivially(values: seq<U32>, bits: nat)
    requires bits <= 32
    ensures bits == 0 || values == [] ==> Packed(values, bits) == []
    ensures bits == 32 ==> Packed(values, bits) == RawBytes(values)
    ensures bits == 32 ==> CompressedBytes(|values|, bits) == 4 * |values|
  {
  }

  /** Pack whole groups of four values. `input` is what the input pointer points at. */
  method PackFixed(bits: nat, input: seq<U32>, groups: nat, out: array<U8>, start: nat) returns (end: nat)
    requires bits <= 32 && 4 * groups <= |input|
    requires start + CompressedBytes(4 * groups, bits) <= out.Length
    modifies out
    ensures end == start + |Packed(input[..4 * groups], bits)| <= out.Length
    ensures out[..] == Put(old(out[..]), start, Packed(input[..4 * groups], bits))
  {
    hide Packed, CompressedBytes, Stream, Packing, AllLanes, RawBytes;
    var values := input[..4 * groups];
    PackedLength(values, bits);
    PackedTrivially(values, bits);
    if bits == 0 || groups == 0 {
      return start;
    }
    if bits == 32 {
      Copy(out, start, RawBytes(values));
      return start + groups * 16;
    }
    PackedIsStream(values, bits);
    ghost var before := out[..];
    assert Groups(|values|) == groups;
    var acc, accBits, p, flushed, pending := PackGroups(values, groups, bits, out, start, groups);
    end := FlushRest(values, groups, bits, acc, accBits, out, p, start, before, flushed, pending);
  }

  /** Pack the last values; a partial last group is padded with zeros. */
  method PackTail(bits: nat, input: seq<U32>, tail: nat, out: array<U8>, start: nat) returns (end: nat)
    requires bits <= 32 && tail <= |input|
    requires start + CompressedBytes(tail, bits) <= out.Length
    modifies out
    ensures end == start + |Packed(input[..tail], bits)| <= out.Length
    ensures out[..] == Put(old(out[..]), start, Packed(input[..tail], bits))
  {
    hide Packed, CompressedBytes, Stream, Packing, AllLanes, RawBytes;
    var values := input[..tail];
    PackedLength(values, bits);
    PackedTrivially(values, bits);
    if tail == 0 || bits == 0 {
      return start;
    }
    if bits == 32 {
      Copy(out, start, RawBytes(values));
      return start + tail * 4;
    }
    PackedIsStream(values, bits);
    var fullGroups, rem := tail / 4, tail % 4;
    ghost var before, groups := out[..], Groups(tail);
    var acc, accBits, p, flushed, pending := PackGroups(values, fullGroups, bits, out, start, groups);
    if rem != 0 {
      acc, accBits, p, flushed, pending :=
        PackGroup(values, fullGroups, bits, acc, accBits, out, p, start, before, flushed, pending, groups);
    }
    assert groups == if rem != 0 then fullGroups + 1 else fullGroups;
    end := FlushRest(values, groups, bits, acc, accBits, out, p, start, before, flushed, pending);
  }

  /** Blocks of 128 values, then the tail: the stream is the same as without blocks. */
  method PackingLength(input: seq<U32>, out: array<U8>, start: nat, bits: nat) returns (end: nat)
    requires bits <= 32 && start + CompressedBytes(|input|, bits) <= out.Length
    modifies out
    ensures end == start + |Packed(input, bits)| == start + CompressedBytes(|input|, bits)
    ensures out[..] == Put(old(out[..]), start, Packed(input, bits))
  {
    hide Packed, CompressedBytes;
    PackedLength(input, bits);
    var length := |input|;
    var blocks := length / BLOCK_SIZE;
    ghost var before := out[..];
    end := start;
    var read := 0;
    PackedNothing(bits);
    for i := 0 to blocks
      invariant read == BLOCK_SIZE * i
      invariant end == start + |Packed(input[..read], bits)| <= out.Length
      invariant out[..] == Put(before, start, Packed(input[..read], bits))
    {
      end := PackBlock(input, read, out, end, bits, start, before, read + BLOCK_SIZE);
      read := read + BLOCK_SIZE;
    }
    var tail := length % BLOCK_SIZE;
    if tail == 0 {
      assert input[..read] == input;
      return;
    }
    end := PackBlock(input, read, out, end, bits, start, before, length);
    assert input[..length] == input;
  }

  /** One block, or the tail: it continues the stream of what was packed before it. */
  method PackBlock(
    input: seq<U32>, read: nat, out: array<U8>, p: nat, bits: nat, ghost start: nat, ghost before: seq<U8>, next: nat)
    returns (end: nat)
    requires bits <= 32 && read % BLOCK_SIZE == 0 && read < next <= |input|
    requires next == read + BLOCK_SIZE || (next == |input| && next < read + BLOCK_SIZE)
    requires |before| == out.Length && start + |Packed(input, bits)| <= |before|
    requires p == start + |Packed(input[..read], bits)| <= |before|
    requires out[..] == Put(before, start, Packed(input[..read], bits))
    modifies out
    ensures end == start + |Packed(input[..next], bits)| <= |before|
    ensures out[..] == Put(before, start, Packed(input[..next], bits))
  {
    hide Packed, CompressedBytes;
    var rest := input[read..];
    assert rest[..next - read] == input[read..next];
    RoomForBlock(input, read, next, bits);
    PackedLength(input[read..next], bits);
    PutPut(before, start, Packed(input[..read], bits), Packed(input[read..next], bits));
    if next == read + BLOCK_SIZE {
      end := PackFixed(bits, rest, 32, out, p);
    } else {
      end := PackTail(bits, rest, next - read, out, p);
    }
  }

  lemma PackedNothing(bits: nat)
    requires bits <= 32
    ensures Packed([], bits) == []
  {
  }

  /** Whole blocks pack into a prefix of the stream. */
  lemma RoomForBlock(input: seq<U32>, read: nat, next: nat, bits: nat)
    requires bits <= 32 && read % BLOCK_SIZE == 0 && read <= next <= |input| && (next % BLOCK_SIZE == 0 || next == |input|)
    ensures Packed(input[..next], bits) == Packed(input[..read], bits) + Packed(input[read..next], bits)
    ensures |Packed(input[..next], bits)| <= |Packed(input, bits)|
  {
    hide Packed;
    assert input[..next] == input[..read] + input[read..next];
    BlocksInvisible(input[..read], input[read..next], bits);
    if next < |input| {
      assert input == input[..next] + input[next..];
      BlocksInvisible(input[..next], input[next..], bits);
    } else {
      assert input[..next] == input;
    }
  }
}
