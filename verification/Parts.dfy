/** Part descriptions: containment, disjointness and sort order (MergeTreePartInfo.h). */
module Parts {

  const MAX_LEVEL := 999999999
  const LEGACY_MAX_LEVEL := 0xFFFF_FFFF
  const PATCH_PART_PREFIX := "patch-"

  /** 32-bit unsigned. */
  type Level = x: int | 0 <= x < 0x1_0000_0000

  /** The block range of a part is never empty: names with min_block > max_block do not parse. */
  datatype PartInfo = PartInfo(partitionId: string, minBlock: int, maxBlock: int, level: Level, mutation: int) {

    predicate WellFormed() {
      minBlock <= maxBlock
    }

    predicate IsPatch() {
      PATCH_PART_PREFIX <= partitionId
    }

    predicate Contains(rhs: PartInfo) {
      var strictlyContainsBlockRange :=
        (minBlock == rhs.minBlock && maxBlock == rhs.maxBlock) || level > rhs.level || level == MAX_LEVEL || level == LEGACY_MAX_LEVEL;
      && partitionId == rhs.partitionId
      && minBlock <= rhs.minBlock
      && maxBlock >= rhs.maxBlock
      && level >= rhs.level
      && mutation >= rhs.mutation
      && strictlyContainsBlockRange
    }

    predicate IsDisjoint(rhs: PartInfo) {
      partitionId != rhs.partitionId || minBlock > rhs.maxBlock || maxBlock < rhs.minBlock
    }
  }

  predicate StringLess(a: string, b: string) {
    if b == [] then false
    else if a == [] then true
    else a[0] < b[0] || (a[0] == b[0] && StringLess(a[1..], b[1..]))
  }

  /** Regular partitions sort before patch partitions, then by name. */
  predicate PartitionLess(a: PartInfo, b: PartInfo) {
    if a.IsPatch() == b.IsPatch() then StringLess(a.partitionId, b.partitionId) else b.IsPatch()
  }

  /** The order of the map's keys. */
  predicate Less(a: PartInfo, b: PartInfo) {
    if a.partitionId != b.partitionId then PartitionLess(a, b)
    else if a.minBlock != b.minBlock then a.minBlock < b.minBlock
    else if a.maxBlock != b.maxBlock then a.maxBlock < b.maxBlock
    else if a.level != b.level then a.level < b.level
    else a.mutation < b.mutation
  }

  /** Patch parts come last; inside one partition parts are ordered by first and last block, then level, then mutation. */
  lemma LessMeans(a: PartInfo, b: PartInfo)
    ensures !("patch-" <= a.partitionId) && "patch-" <= b.partitionId ==> Less(a, b)
    ensures a.partitionId == b.partitionId ==>
              (Less(a, b) <==>
                 || a.minBlock < b.minBlock
                 || (a.minBlock == b.minBlock && a.maxBlock < b.maxBlock)
                 || (a.minBlock == b.minBlock && a.maxBlock == b.maxBlock && a.level < b.level)
                 || (a.minBlock == b.minBlock && a.maxBlock == b.maxBlock && a.level == b.level && a.mutation < b.mutation))
    ensures ("patch-" <= a.partitionId <==> "patch-" <= b.partitionId) && a.partitionId != b.partitionId ==>
              (Less(a, b) <==> StringLess(a.partitionId, b.partitionId))
  {
  }

  lemma {:induction false} StringLessTransitive(a: string, b: string, c: string)
    requires StringLess(a, b) && StringLess(b, c)
    ensures StringLess(a, c)
  {
    if a != [] && a[0] == b[0] == c[0] {
      StringLessTransitive(a[1..], b[1..], c[1..]);
    }
  }

  lemma {:induction false} StringLessTotal(a: string, b: string)
    ensures !(StringLess(a, b) && StringLess(b, a))
    ensures a != b ==> StringLess(a, b) || StringLess(b, a)
    ensures a == b ==> !StringLess(a, b)
  {
    if a != [] && b != [] {
      StringLessTotal(a[1..], b[1..]);
      assert a == [a[0]] + a[1..] && b == [b[0]] + b[1..];
    }
  }

  lemma LessTransitive(a: PartInfo, b: PartInfo, c: PartInfo)
    requires Less(a, b) && Less(b, c)
    ensures Less(a, c)
    ensures a.partitionId == c.partitionId ==> a.partitionId == b.partitionId
  {
    hide StringLess;
    StringLessTotal(a.partitionId, b.partitionId);
    StringLessTotal(b.partitionId, c.partitionId);
    StringLessTotal(a.partitionId, c.partitionId);
    if StringLess(a.partitionId, b.partitionId) && StringLess(b.partitionId, c.partitionId) {
      StringLessTransitive(a.partitionId, b.partitionId, c.partitionId);
    }
  }

  lemma LessTotal(a: PartInfo, b: PartInfo)
    ensures !(Less(a, b) && Less(b, a))
    ensures a != b <==> Less(a, b) || Less(b, a)
  {
    hide StringLess;
    StringLessTotal(a.partitionId, b.partitionId);
  }

  /** Containment is a partial order, also with the two special levels. */
  lemma ContainsIsPartialOrder(a: PartInfo, b: PartInfo, c: PartInfo)
    ensures a.Contains(a)
    ensures a.Contains(b) && b.Contains(a) ==> a == b
    ensures a.Contains(b) && b.Contains(c) ==> a.Contains(c)
  {
  }

  predicate HasBlock(p: PartInfo, block: int) {
    p.minBlock <= block <= p.maxBlock
  }

  /** Containment in terms of blocks: those of `b` are among those of `a`, which is no older in level and mutation, and has
      either the same blocks, a higher level, or one of the two levels that stand for everything. */
  lemma ContainsMeans(a: PartInfo, b: PartInfo)
    requires a.WellFormed() && b.WellFormed()
    ensures a.Contains(b) <==>
      && a.partitionId == b.partitionId
      && (forall block :: HasBlock(b, block) ==> HasBlock(a, block))
      && a.level >= b.level && a.mutation >= b.mutation
      && (|| (forall block :: HasBlock(a, block) ==> HasBlock(b, block))
          || a.level > b.level || a.level in {999_999_999, 4_294_967_295})
    ensures a.IsDisjoint(b) <==> (a.partitionId == b.partitionId ==> forall block :: !(HasBlock(a, block) && HasBlock(b, block)))
  {
    assert HasBlock(b, b.minBlock) && HasBlock(b, b.maxBlock) && HasBlock(a, a.minBlock) && HasBlock(a, a.maxBlock);
  }

  lemma ContainedIsNotDisjoint(a: PartInfo, b: PartInfo)
    requires a.WellFormed() && b.WellFormed() && a.Contains(b)
    ensures !a.IsDisjoint(b) && !b.IsDisjoint(a)
  {
  }
}
