/** The decoder, and the round trip (BitpackingBlockCodecImpl<false>). */
module BitUnpacking {
  import opened Words
  import opened BitpackingFormat
  import opened Bitpacking

  function LoadChunk(input: seq<U8>, p: nat): Quad<U32>
    requires p + 16 <= |input|
  {
    Quad(WordOf(input[p..p + 4]), WordOf(input[p + 4..p + 8]), WordOf(input[p + 8..p + 12]), WordOf(input[p + 12..p + 16]))
  }

  /** The lanes' bits in so many chunks of a stream. */
  function ReadLanes(input: seq<U8>, p: nat, chunks: nat): (q: Lanes)
    requires p + 16 * chunks <= |input|
    ensures |q.x0| == 32 * chunks
    decreases chunks
  {
    if chunks == 0 then Quad([], [], [], [])
    else Join(ValueBits(LoadChunk(input, p), 32), ReadLanes(input, p + 16, chunks - 1))
  }

  function Mid(q: Lanes, i: nat, j: nat): (r: Lanes)
    requires i <= j <= |q.x0|
    ensures |r.x0| == j - i
  {
    Quad(q.x0[i..j], q.x1[i..j], q.x2[i..j], q.x3[i..j])
  }

  lemma MidJoin(q: Lanes, i: nat, j: nat, k: nat)
    requires i <= j <= k <= |q.x0|
    ensures Join(Mid(q, i, j), Mid(q, j, k)) == Mid(q, i, k)
  {
    assert q.x0[i..j] + q.x0[j..k] == q.x0[i..k] && q.x1[i..j] + q.x1[j..k] == q.x1[i..k];
    assert q.x2[i..j] + q.x2[j..k] == q.x2[i..k] && q.x3[i..j] + q.x3[j..k] == q.x3[i..k];
  }

  lemma MidOfTail(a: Lanes, b: Lanes, i: nat, j: nat)
    requires i <= j <= |b.x0|
    ensures Mid(Join(a, b), |a.x0| + i, |a.x0| + j) == Mid(b, i, j)
  {
    var n := |a.x0|;
    assert (a.x0 + b.x0)[n + i..n + j] == b.x0[i..j] && (a.x1 + b.x1)[n + i..n + j] == b.x1[i..j];
    assert (a.x2 + b.x2)[n + i..n + j] == b.x2[i..j] && (a.x3 + b.x3)[n + i..n + j] == b.x3[i..j];
  }

  lemma {:induction false} ReadLanesAt(input: seq<U8>, p: nat, chunks: nat, c: nat)
    requires p + 16 * chunks <= |input| && c < chunks
    ensures Mid(ReadLanes(input, p, chunks), 32 * c, 32 * (c + 1)) == ValueBits(LoadChunk(input, p + 16 * c), 32)
    decreases chunks
  {
    hide Bits;
    var first, rest := ValueBits(LoadChunk(input, p), 32), ReadLanes(input, p + 16, chunks - 1);
    if c == 0 {
    } else {
      MidOfTail(first, rest, 32 * (c - 1), 32 * c);
      ReadLanesAt(input, p + 16, chunks - 1, c - 1);
    }
  }

  function LaneOf<T>(q: Quad<T>, l: nat): T {
    if l == 0 then q.x0 else if l == 1 then q.x1 else if l == 2 then q.x2 else q.x3
  }

  /** Value `i` of a stream: bits `i / 4 * bits` and on of its lane. */
  function Decoded(q: Lanes, bits: nat, i: nat): U32
    requires bits <= 32 && i / 4 * bits + bits <= |q.x0|
  {
    var from := i / 4 * bits;
    WordFits(LaneOf(q, i % 4)[from..from + bits]);
    FromBits(LaneOf(q, i % 4)[from..from + bits])
  }

  lemma ValueInside(i: nat, count: nat, bits: nat)
    requires i < count
    ensures i / 4 * bits + bits <= Groups(count) * bits
  {
    NextGroupFits(bits, i / 4, Groups(count));
  }

  function DecodedSeq(q: Lanes, bits: nat, count: nat): (s: seq<U32>)
    requires bits <= 32 && Groups(count) * bits <= |q.x0|
    ensures |s| == count
  {
    seq(count, i requires 0 <= i < count => ValueInside(i, count, bits); Decoded(q, bits, i))
  }

  /** What is decoded from a byte stream, for the widths that store anything. */
  function Unpacked(input: seq<U8>, p: nat, count: nat, bits: nat): (s: seq<U32>)
    requires 1 <= bits <= 32 && p + CompressedBytes(count, bits) <= |input|
    ensures |s| == count
  {
    if bits == 32 then seq(count, i requires 0 <= i < count => WordOf(input[p + 4 * i..p + 4 * i + 4]))
    else DecodedSeq(ReadLanes(input, p, WordCount(Groups(count) * bits)), bits, count)
  }

  /** Read one more word per lane into the accumulators; at most 62 bits are held. */
  method Refill(acc: Quad<U64>, accBits: nat, words: Quad<U32>, ghost pending: Lanes) returns (acc': Quad<U64>)
    requires |pending.x0| == accBits <= 30 && acc == Accumulators(pending)
    ensures acc' == Accumulators(Join(pending, ValueBits(words, 32)))
  {
    hide Bits, FromBits, Pow2, Shl64, Or64;
    PowWords();
    PushBits(pending.x0, words.x0, 32);
    PushBits(pending.x1, words.x1, 32);
    PushBits(pending.x2, words.x2, 32);
    PushBits(pending.x3, words.x3, 32);
    acc' := Quad(Or64(acc.x0, Shl64(words.x0, accBits)), Or64(acc.x1, Shl64(words.x1, accBits)),
                 Or64(acc.x2, Shl64(words.x2, accBits)), Or64(acc.x3, Shl64(words.x3, accBits)));
  }

  /** Take one value per lane out of the accumulators. */
  method Extract(acc: Quad<U64>, bits: nat, ghost pending: Lanes) returns (v: Quad<U32>, acc': Quad<U64>)
    requires 1 <= bits <= 31 && bits <= |pending.x0| <= 62 && acc == Accumulators(pending)
    ensures v == LaneWords(Heads(pending, bits))
    ensures acc' == Accumulators(Tails(pending, bits))
  {
    hide FromBits, Low32, Shr64, And32, MaskForBits;
    TakeBits(pending.x0, bits);
    TakeBits(pending.x1, bits);
    TakeBits(pending.x2, bits);
    TakeBits(pending.x3, bits);
    var mask := MaskForBits(bits);
    v := Quad(And32(Low32(acc.x0), mask), And32(Low32(acc.x1), mask), And32(Low32(acc.x2), mask), And32(Low32(acc.x3), mask));
    acc' := Quad(Shr64(acc.x0, bits), Shr64(acc.x1, bits), Shr64(acc.x2, bits), Shr64(acc.x3, bits));
  }

  /** `chunks` chunks read, `produced` groups extracted: the accumulators hold the bits in between. */
  ghost predicate Reading(q: Lanes, bits: nat, chunks: nat, produced: nat, acc: Quad<U64>, accBits: nat) {
    && produced * bits <= 32 * chunks <= |q.x0|
    && accBits == 32 * chunks - produced * bits <= 62
    && acc == Accumulators(Mid(q, produced * bits, 32 * chunks))
  }

  method RefillStep(
    input: seq<U8>, p: nat, acc: Quad<U64>, accBits: nat, ghost start: nat, ghost total: nat, ghost bits: nat,
    ghost chunks: nat, ghost produced: nat)
    returns (acc': Quad<U64>)
    requires accBits < bits <= 31 && chunks < total && start + 16 * total <= |input| && p == start + 16 * chunks
    requires Reading(ReadLanes(input, start, total), bits, chunks, produced, acc, accBits)
    ensures Reading(ReadLanes(input, start, total), bits, chunks + 1, produced, acc', accBits + 32)
  {
    hide ReadLanes, Accumulators, LoadChunk, ValueBits;
    ghost var q := ReadLanes(input, start, total);
    ReadLanesAt(input, start, total, chunks);
    MidJoin(q, produced * bits, 32 * chunks, 32 * (chunks + 1));
    acc' := Refill(acc, accBits, LoadChunk(input, p), Mid(q, produced * bits, 32 * chunks));
  }

  method ExtractStep(
    acc: Quad<U64>, accBits: nat, bits: nat, ghost q: Lanes, ghost chunks: nat, ghost produced: nat)
    returns (v: Quad<U32>, acc': Quad<U64>)
    requires 1 <= bits <= 31 && bits <= accBits
    requires Reading(q, bits, chunks, produced, acc, accBits)
    ensures Reading(q, bits, chunks, produced + 1, acc', accBits - bits)
    ensures produced * bits + bits <= |q.x0|
    ensures v == LaneWords(Mid(q, produced * bits, produced * bits + bits))
  {
    hide Accumulators, LaneWords;
    ghost var from, to := produced * bits, 32 * chunks;
    assert (produced + 1) * bits == from + bits;
    v, acc' := Extract(acc, bits, Mid(q, from, to));
    MidParts(q, from, from + bits, to);
  }

  lemma MidParts(q: Lanes, i: nat, j: nat, k: nat)
    requires i <= j <= k <= |q.x0|
    ensures Heads(Mid(q, i, k), j - i) == Mid(q, i, j) && Tails(Mid(q, i, k), j - i) == Mid(q, j, k)
  {
    assert q.x0[i..k][..j - i] == q.x0[i..j] && q.x0[i..k][j - i..] == q.x0[j..k];
    assert q.x1[i..k][..j - i] == q.x1[i..j] && q.x1[i..k][j - i..] == q.x1[j..k];
    assert q.x2[i..k][..j - i] == q.x2[i..j] && q.x2[i..k][j - i..] == q.x2[j..k];
    assert q.x3[i..k][..j - i] == q.x3[i..j] && q.x3[i..k][j - i..] == q.x3[j..k];
  }

  function QuadSeq(v: Quad<U32>): (s: seq<U32>)
    ensures |s| == 4
  {
    [v.x0, v.x1, v.x2, v.x3]
  }

  /** The first `n` values of a group stored. */
  method StoreValues(out: array<U32>, at: nat, v: Quad<U32>, n: nat)
    requires n <= 4 && at + n <= out.Length
    modifies out
    ensures out[..] == Put(old(out[..]), at, QuadSeq(v)[..n])
  {
    if n > 0 { out[at] := v.x0; }
    if n > 1 { out[at + 1] := v.x1; }
    if n > 2 { out[at + 2] := v.x2; }
    if n > 3 { out[at + 3] := v.x3; }
  }

  /** The group just extracted continues the decoded values. */
  lemma DecodedNext(q: Lanes, bits: nat, produced: nat, n: nat, v: Quad<U32>)
    requires 1 <= bits <= 31 && produced * bits + bits <= |q.x0| && 1 <= n <= 4
    requires v == LaneWords(Mid(q, produced * bits, produced * bits + bits))
    ensures (produced + 1) * bits == produced * bits + bits
    ensures Groups(4 * produced + n) == produced + 1 && Groups(4 * produced) == produced
    ensures DecodedSeq(q, bits, 4 * produced + n) == DecodedSeq(q, bits, 4 * produced) + QuadSeq(v)[..n]
  {
    hide FromBits;
    var a, b := DecodedSeq(q, bits, 4 * produced + n), DecodedSeq(q, bits, 4 * produced);
    forall i | 0 <= i < 4 * produced + n ensures a[i] == (b + QuadSeq(v)[..n])[i] {
      if i >= 4 * produced {
        assert i / 4 == produced && i % 4 == i - 4 * produced;
        assert QuadSeq(v)[..n][i - 4 * produced] == Decoded(q, bits, i);
      }
    }
  }

  lemma MoreToRead(bits: nat, chunks: nat, produced: nat, groups: nat, accBits: nat)
    requires produced < groups && accBits < bits && 32 * chunks == produced * bits + accBits
    ensures chunks < WordCount(groups * bits)
  {
    NextGroupFits(bits, produced, groups);
    var x := groups * bits;
    assert 32 * chunks < x;
  }

  lemma AllRead(bits: nat, chunks: nat, groups: nat, accBits: nat)
    requires accBits < 32 && 32 * chunks == groups * bits + accBits
    ensures chunks == WordCount(groups * bits)
  {
  }

  lemma RawSize(count: nat)
    ensures CompressedBytes(count, 32) == 4 * count
  {
  }

  lemma RawUnpacked(input: seq<U8>, p: nat, count: nat)
    requires p + 4 * count <= |input|
    ensures CompressedBytes(count, 32) == 4 * count
    ensures forall i :: 0 <= i < count ==> Unpacked(input, p, count, 32)[i] == WordOf(input[p + 4 * i..p + 4 * i + 4])
  {
  }

  /** memcpy of whole 32-bit words. */
  method CopyWords(input: seq<U8>, p: nat, count: nat, out: array<U32>, q: nat)
    requires p + 4 * count <= |input| && q + count <= out.Length
    modifies out
    ensures p + CompressedBytes(count, 32) <= |input|
    ensures out[..] == Put(old(out[..]), q, Unpacked(input, p, count, 32))
  {
    RawSize(count);
    RawUnpacked(input, p, count);
    ghost var words := Unpacked(input, p, count, 32);
    for i := 0 to count
      invariant out[..] == Put(old(out[..]), q, words[..i])
    {
      out[q + i] := WordOf(input[p + 4 * i..p + 4 * i + 4]);
      assert words[..i + 1] == words[..i] + [words[i]];
    }
    assert words[..count] == words;
  }

  /** What the decoder leaves: for width zero nothing is read and the output stays as it was. */
  ghost predicate DecodedInto(
      now: seq<U32>, before: seq<U32>, q: nat, input: seq<U8>, p: nat, count: nat, bits: nat, end: nat)
    requires bits <= 32 && q + count <= |before| && p + CompressedBytes(count, bits) <= |input|
  {
    && end == p + CompressedBytes(count, bits)
    && now == if bits == 0 then before else Put(before, q, Unpacked(input, p, count, bits))
  }

  lemma NothingDecoded(before: seq<U32>, q: nat, input: seq<U8>, p: nat, count: nat, bits: nat)
    requires bits <= 32 && q + count <= |before| && p + CompressedBytes(count, bits) <= |input|
    requires bits == 0 || count == 0
    ensures DecodedInto(before, before, q, input, p, count, bits, p)
  {
  }

  lemma UnpackedIsLanes(input: seq<U8>, p: nat, count: nat, bits: nat)
    requires 1 <= bits <= 31 && p + CompressedBytes(count, bits) <= |input|
    ensures CompressedBytes(count, bits) == 16 * WordCount(Groups(count) * bits)
    ensures Groups(count) * bits <= 32 * WordCount(Groups(count) * bits)
    ensures Unpacked(input, p, count, bits) == DecodedSeq(ReadLanes(input, p, WordCount(Groups(count) * bits)), bits, count)
  {
  }

  lemma StartReading(q: Lanes, bits: nat)
    ensures Reading(q, bits, 0, 0, Quad(0, 0, 0, 0), 0)
  {
  }

  /** Extract group `g` and store its first `n` values. */
  method ExtractGroup(
    acc: Quad<U64>, accBits: nat, bits: nat, g: nat, n: nat, out: array<U32>, at: nat,
    ghost q: Lanes, ghost chunks: nat, ghost before: seq<U32>)
    returns (acc': Quad<U64>)
    requires 1 <= bits <= 31 && bits <= accBits && 1 <= n <= 4
    requires Reading(q, bits, chunks, g, acc, accBits) && 32 * chunks == g * bits + accBits
    requires Groups(4 * g) * bits <= |q.x0| && at + 4 * g + n <= out.Length == |before|
    requires out[..] == Put(before, at, DecodedSeq(q, bits, 4 * g))
    modifies out
    ensures Reading(q, bits, chunks, g + 1, acc', accBits - bits) && 32 * chunks == (g + 1) * bits + (accBits - bits)
    ensures Groups(4 * g + n) == g + 1 && Groups(4 * g + n) * bits <= |q.x0|
    ensures out[..] == Put(before, at, DecodedSeq(q, bits, 4 * g + n))
  {
    hide Reading, DecodedSeq, LaneWords;
    var v;
    v, acc' := ExtractStep(acc, accBits, bits, q, chunks, g);
    DecodedNext(q, bits, g, n, v);
    PutPut(before, at, DecodedSeq(q, bits, 4 * g), QuadSeq(v)[..n]);
    StoreValues(out, at + 4 * g, v, n);
    assert (g + 1) * bits == g * bits + bits;
  }

  /** Unpack whole groups: refill while fewer than `bits` bits are left, otherwise extract. */
  method UnpackFixed(bits: nat, input: seq<U8>, start: nat, groups: nat, out: array<U32>, at: nat) returns (end: nat)
    requires bits <= 32 && at + 4 * groups <= out.Length
    requires start + CompressedBytes(4 * groups, bits) <= |input|
    modifies out
    ensures DecodedInto(out[..], old(out[..]), at, input, start, 4 * groups, bits, end)
  {
    hide ReadLanes, Reading, DecodedSeq, CompressedBytes, Unpacked, WordCount;
    if groups == 0 || bits == 0 {
      NothingDecoded(out[..], at, input, start, 4 * groups, bits);
      return start;
    }
    if bits == 32 {
      RawSize(4 * groups);
      CopyWords(input, start, 4 * groups, out, at);
      return start + groups * 16;
    }
    UnpackedIsLanes(input, start, 4 * groups, bits);
    assert Groups(4 * groups) == groups;
    end := UnpackGroups(bits, input, start, groups, out, at);
  }

  /** The loop of UnpackFixed for the widths 1 to 31. */
  method UnpackGroups(bits: nat, input: seq<U8>, start: nat, groups: nat, out: array<U32>, at: nat) returns (end: nat)
    requires 1 <= bits <= 31 && at + 4 * groups <= out.Length
    requires groups > 0 && Groups(4 * groups) == groups && groups * bits <= 32 * WordCount(groups * bits)
    requires start + 16 * WordCount(groups * bits) <= |input|
    modifies out
    ensures end == start + 16 * WordCount(groups * bits)
    ensures out[..] == Put(old(out[..]), at, DecodedSeq(ReadLanes(input, start, WordCount(groups * bits)), bits, 4 * groups))
  {
    hide ReadLanes, Reading, DecodedSeq, WordCount;
    ghost var total := WordCount(groups * bits);
    ghost var q := ReadLanes(input, start, total);
    ghost var before, chunks: nat := out[..], 0;
    var acc, accBits: nat, p, produced := Quad(0, 0, 0, 0), 0, start, 0;
    StartReading(q, bits);
    while produced < groups
      invariant produced <= groups && p == start + 16 * chunks
      invariant Reading(q, bits, chunks, produced, acc, accBits)
      invariant 32 * chunks == produced * bits + accBits
      invariant accBits < 32 || (produced < groups && accBits < bits + 32)
      invariant produced * bits <= |q.x0| && Groups(4 * produced) == produced
      invariant out[..] == Put(before, at, DecodedSeq(q, bits, 4 * produced))
      decreases groups - produced, if accBits < bits then 1 else 0
    {
      if accBits < bits {
        MoreToRead(bits, chunks, produced, groups, accBits);
        acc := RefillStep(input, p, acc, accBits, start, total, bits, chunks, produced);
        p, accBits, chunks := p + 16, accBits + 32, chunks + 1;
        continue;
      }
      acc := ExtractGroup(acc, accBits, bits, produced, 4, out, at, q, chunks, before);
      accBits, produced := accBits - bits, produced + 1;
    }
    AllRead(bits, chunks, groups, accBits);
    return p;
  }

  /** Unpack the last values: one refill at most per group, and only the values there are of the last group. */
  method UnpackTail(bits: nat, input: seq<U8>, start: nat, tail: nat, out: array<U32>, at: nat) returns (end: nat)
    requires bits <= 32 && at + tail <= out.Length
    requires start + CompressedBytes(tail, bits) <= |input|
    modifies out
    ensures DecodedInto(out[..], old(out[..]), at, input, start, tail, bits, end)
  {
    hide ReadLanes, Reading, DecodedSeq, CompressedBytes, Unpacked, WordCount;
    if tail == 0 || bits == 0 {
      NothingDecoded(out[..], at, input, start, tail, bits);
      return start;
    }
    if bits == 32 {
      RawSize(tail);
      CopyWords(input, start, tail, out, at);
      return start + tail * 4;
    }
    UnpackedIsLanes(input, start, tail, bits);
    end := UnpackTailGroups(bits, input, start, tail, out, at);
  }

  /** How many values the group before the end holds. */
  lemma TailGroup(tail: nat, g: nat)
    requires g < (tail + 3) / 4
    ensures var n := if g < tail / 4 then 4 else tail % 4;
            1 <= n <= 4 && 4 * g + n == if g + 1 < (tail + 3) / 4 then 4 * (g + 1) else tail
  {
  }

  /** The loop of UnpackTail for the widths 1 to 31. */
  method UnpackTailGroups(bits: nat, input: seq<U8>, start: nat, tail: nat, out: array<U32>, at: nat) returns (end: nat)
    requires 1 <= bits <= 31 && at + tail <= out.Length && tail > 0
    requires Groups(tail) * bits <= 32 * WordCount(Groups(tail) * bits)
    requires start + 16 * WordCount(Groups(tail) * bits) <= |input|
    modifies out
    ensures end == start + 16 * WordCount(Groups(tail) * bits)
    ensures out[..] == Put(old(out[..]), at, DecodedSeq(ReadLanes(input, start, WordCount(Groups(tail) * bits)), bits, tail))
  {
    hide ReadLanes, Reading, DecodedSeq, WordCount;
    var groups, fullGroups, rem := (tail + 3) / 4, tail / 4, tail % 4;
    ghost var total := WordCount(groups * bits);
    ghost var q := ReadLanes(input, start, total);
    ghost var before, chunks: nat, stored: nat := out[..], 0, 0;
    var acc, accBits: nat, p := Quad(0, 0, 0, 0), 0, start;
    StartReading(q, bits);
    for g := 0 to groups
      invariant p == start + 16 * chunks && accBits < 32
      invariant Reading(q, bits, chunks, g, acc, accBits)
      invariant 32 * chunks == g * bits + accBits
      invariant stored == (if g < groups then 4 * g else tail) <= tail && Groups(stored) * bits <= |q.x0|
      invariant out[..] == Put(before, at, DecodedSeq(q, bits, stored))
    {
      if accBits < bits {
        MoreToRead(bits, chunks, g, groups, accBits);
        acc := RefillStep(input, p, acc, accBits, start, total, bits, chunks, g);
        p, accBits, chunks := p + 16, accBits + 32, chunks + 1;
      }
      var n := if g < fullGroups then 4 else rem;
      TailGroup(tail, g);
      acc := ExtractGroup(acc, accBits, bits, g, n, out, at, q, chunks, before);
      accBits, stored := accBits - bits, stored + n;
    }
    AllRead(bits, chunks, groups, accBits);
    return p;
  }
}
