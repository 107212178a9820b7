/** The part that a merge produces, and what adding it does to the active set (FutureMergedMutatedPart, MergeList). */
module Merging {
  import opened Parts
  import opened ActiveParts

  const LEVELS := 0x1_0000_0000

  function MaxLevel(sources: seq<PartInfo>): Level {
    if sources == [] then 0
    else
      var rest, last := MaxLevel(sources[..|sources| - 1]), sources[|sources| - 1].level;
      if rest < last then last else rest
  }

  /** The largest of zero, the sources' mutation versions and the patches' data versions. */
  function MaxVersion(versions: seq<int>): int {
    if versions == [] then 0
    else
      var rest, last := MaxVersion(versions[..|versions| - 1]), versions[|versions| - 1];
      if rest < last then last else rest
  }

  lemma {:induction false} MaxLevelBounds(sources: seq<PartInfo>)
    ensures forall i :: 0 <= i < |sources| ==> sources[i].level <= MaxLevel(sources)
    ensures sources != [] ==> exists i :: 0 <= i < |sources| && sources[i].level == MaxLevel(sources)
  {
    if sources != [] {
      var n := |sources| - 1;
      MaxLevelBounds(sources[..n]);
      assert forall i :: 0 <= i < n ==> sources[i] == sources[..n][i];
      if MaxLevel(sources[..n]) >= sources[n].level && n > 0 {
        var i :| 0 <= i < n && sources[..n][i].level == MaxLevel(sources[..n]);
        assert sources[i].level == MaxLevel(sources);
      } else {
        assert sources[n].level == MaxLevel(sources);
      }
    }
  }

  /** The least number that is not below zero and not below any of them. */
  lemma {:induction false} MaxVersionBounds(versions: seq<int>)
    ensures forall i :: 0 <= i < |versions| ==> versions[i] <= MaxVersion(versions)
    ensures MaxVersion(versions) >= 0
    ensures MaxVersion(versions) == 0 || MaxVersion(versions) in versions
  {
    if versions != [] {
      var n := |versions| - 1;
      MaxVersionBounds(versions[..n]);
      assert forall i :: 0 <= i < n ==> versions[i] == versions[..n][i];
      assert versions[n] in versions;
    }
  }

  class FutureMergedMutatedPart {
    var parts: seq<PartInfo>
    var partInfo: PartInfo

    constructor ()
      ensures parts == []
    {
      parts := [];
      partInfo := PartInfo("", 0, 0, 0, 0);
    }

    /** `patchVersions` are the largest data versions of the patches' source parts. Answers false where the source throws
        because the parts come from different partitions. The level is a 32-bit number and wraps around. */
    method Assign(sources: seq<PartInfo>, patchVersions: seq<int>) returns (ok: bool)
      modifies this
      ensures ok <==> forall i :: 0 <= i < |sources| ==> sources[i].partitionId == sources[0].partitionId
      ensures !ok || sources == [] ==> parts == old(parts) && partInfo == old(partInfo)
      ensures ok && sources != [] ==>
        && parts == sources
        && partInfo == MergedInfo(sources, patchVersions)
        && partInfo.partitionId == sources[0].partitionId
        && partInfo.minBlock == sources[0].minBlock && partInfo.maxBlock == sources[|sources| - 1].maxBlock
        && IsMergedLevel(partInfo.level, sources) && IsMergedMutation(partInfo.mutation, sources, patchVersions)
    {
      if sources == [] {
        return true;
      }
      for i := 0 to |sources|
        invariant forall j :: 0 <= j < i ==> sources[j].partitionId == sources[0].partitionId
      {
        if sources[i].partitionId != sources[0].partitionId {
          return false;
        }
      }
      parts := sources;
      var maxLevel: Level := 0;
      var maxMutation := 0;
      ghost var mutations := [];
      for i := 0 to |sources|
        invariant maxLevel == MaxLevel(sources[..i])
        invariant mutations == Mutations(sources[..i]) && maxMutation == MaxVersion(mutations)
        invariant parts == sources && partInfo == old(partInfo)
      {
        assert sources[..i + 1][..i] == sources[..i];
        assert Mutations(sources[..i + 1]) == mutations + [sources[i].mutation];
        maxLevel := if maxLevel < sources[i].level then sources[i].level else maxLevel;
        maxMutation := if maxMutation < sources[i].mutation then sources[i].mutation else maxMutation;
        assert (mutations + [sources[i].mutation])[..i] == mutations;
        mutations := mutations + [sources[i].mutation];
      }
      assert sources[..|sources|] == sources && mutations + patchVersions[..0] == mutations;
      for i := 0 to |patchVersions|
        invariant maxMutation == MaxVersion(mutations + patchVersions[..i])
        invariant parts == sources && partInfo == old(partInfo)
      {
        var all := mutations + patchVersions[..i + 1];
        assert all[..|all| - 1] == mutations + patchVersions[..i];
        maxMutation := if maxMutation < patchVersions[i] then patchVersions[i] else maxMutation;
      }
      assert patchVersions[..|patchVersions|] == patchVersions;
      MergedFields(sources, patchVersions);
      partInfo := PartInfo(sources[0].partitionId, sources[0].minBlock, sources[|sources| - 1].maxBlock,
                           (maxLevel + 1) % LEVELS, maxMutation);
      return true;
    }
  }

  function Mutations(sources: seq<PartInfo>): seq<int> {
    seq(|sources|, i requires 0 <= i < |sources| => sources[i].mutation)
  }

  function MergedInfo(sources: seq<PartInfo>, patchVersions: seq<int>): PartInfo
    requires sources != []
  {
    PartInfo(sources[0].partitionId, sources[0].minBlock, sources[|sources| - 1].maxBlock,
             (MaxLevel(sources) + 1) % LEVELS, MaxVersion(Mutations(sources) + patchVersions))
  }

  /** One above the level of a source of the highest level, or zero if that is the largest 32-bit number. */
  predicate IsMergedLevel(level: int, sources: seq<PartInfo>) {
    exists i :: 0 <= i < |sources| && (forall j :: 0 <= j < |sources| ==> sources[j].level <= sources[i].level)
      && level == if sources[i].level == 0xFFFF_FFFF then 0 else sources[i].level + 1
  }

  /** Zero or the version of a source or patch, and not below any of them. */
  predicate IsMergedMutation(mutation: int, sources: seq<PartInfo>, patchVersions: seq<int>) {
    && (|| mutation == 0
        || (exists i :: 0 <= i < |sources| && sources[i].mutation == mutation)
        || mutation in patchVersions)
    && mutation >= 0
    && (forall i :: 0 <= i < |sources| ==> sources[i].mutation <= mutation)
    && (forall v :: v in patchVersions ==> v <= mutation)
  }

  lemma MergedFields(sources: seq<PartInfo>, patchVersions: seq<int>)
    requires sources != []
    ensures IsMergedLevel(MergedInfo(sources, patchVersions).level, sources)
    ensures IsMergedMutation(MergedInfo(sources, patchVersions).mutation, sources, patchVersions)
  {
    hide IsMergedLevel, IsMergedMutation, MaxVersion, Mutations;
    MergedLevel(sources);
    MergedMutation(sources, patchVersions);
  }

  lemma MergedLevel(sources: seq<PartInfo>)
    requires sources != []
    ensures IsMergedLevel((MaxLevel(sources) + 1) % LEVELS, sources)
  {
    hide MaxLevel;
    MaxLevelBounds(sources);
  }

  lemma MergedMutation(sources: seq<PartInfo>, patchVersions: seq<int>)
    ensures IsMergedMutation(MaxVersion(Mutations(sources) + patchVersions), sources, patchVersions)
  {
    hide MaxVersion;
    var own := Mutations(sources);
    var versions := own + patchVersions;
    MaxVersionBounds(versions);
    forall i | 0 <= i < |sources| ensures sources[i].mutation <= MaxVersion(versions) {
      assert versions[i] == own[i] == sources[i].mutation;
    }
    forall v | v in patchVersions ensures v <= MaxVersion(versions) {
      var i :| 0 <= i < |patchVersions| && patchVersions[i] == v;
      assert versions[|own| + i] == v;
    }
    if MaxVersion(versions) in own {
      var i :| 0 <= i < |own| && own[i] == MaxVersion(versions);
      assert sources[i].mutation == MaxVersion(versions);
    }
  }

  function InfoSeq(s: seq<Entry>): seq<PartInfo> {
    seq(|s|, i requires 0 <= i < |s| => s[i].info)
  }

  /** A contiguous run of active parts of one partition. */
  predicate Run(s: seq<Entry>, i: nat, j: nat) {
    i < j <= |s| && s[i].info.partitionId == s[j - 1].info.partitionId
  }

  lemma RunInOrder(s: seq<Entry>, i: nat, j: nat, k: nat)
    requires SortedDisjoint(s) && Run(s, i, j) && i <= k < j
    ensures s[k].info.partitionId == s[i].info.partitionId
    ensures s[i].info.minBlock <= s[k].info.minBlock && s[k].info.maxBlock <= s[j - 1].info.maxBlock
  {
    Neighbours(s, i, k, j - 1);
    assert s[i].info.WellFormed() && s[k].info.WellFormed() && s[j - 1].info.WellFormed();
  }

  /** The merged part contains each of its sources exactly when the level of none of them is the largest 32-bit number. */
  lemma MergedContainsSources(s: seq<Entry>, i: nat, j: nat, patchVersions: seq<int>)
    requires SortedDisjoint(s) && Run(s, i, j)
    ensures var merged := MergedInfo(InfoSeq(s[i..j]), patchVersions);
            && merged.WellFormed()
            && ((forall k :: i <= k < j ==> merged.Contains(s[k].info))
                <==> forall k :: i <= k < j ==> s[k].info.level != LEGACY_MAX_LEVEL)
  {
    hide MergedInfo, PartInfo.Contains, SortedDisjoint;
    var sources := InfoSeq(s[i..j]);
    MergedIsValid(s, i, j, patchVersions);
    forall k | i <= k < j
      ensures s[k].info.level <= MaxLevel(sources)
      ensures MaxLevel(sources) != LEGACY_MAX_LEVEL ==> MergedInfo(sources, patchVersions).Contains(s[k].info)
    {
      MergedContainsOne(s, i, j, patchVersions, k);
    }
    var top := HighestSource(s, i, j);
    if s[top].info.level == LEGACY_MAX_LEVEL {
      WrappedLevelLosesSource(s, i, j, patchVersions, top);
    }
  }

  lemma HighestSource(s: seq<Entry>, i: nat, j: nat) returns (k: nat)
    requires i < j <= |s|
    ensures i <= k < j && s[k].info.level == MaxLevel(InfoSeq(s[i..j]))
  {
    var sources := InfoSeq(s[i..j]);
    MaxLevelBounds(sources);
    var top :| 0 <= top < |sources| && sources[top].level == MaxLevel(sources);
    k := i + top;
  }

  lemma MergedIsValid(s: seq<Entry>, i: nat, j: nat, patchVersions: seq<int>)
    requires SortedDisjoint(s) && Run(s, i, j)
    ensures MergedInfo(InfoSeq(s[i..j]), patchVersions).WellFormed()
  {
    RunInOrder(s, i, j, j - 1);
    MaxLevelBounds(InfoSeq(s[i..j]));
  }

  /** The level above the largest 32-bit number is zero. */
  lemma WrappedLevelLosesSource(s: seq<Entry>, i: nat, j: nat, patchVersions: seq<int>, k: nat)
    requires SortedDisjoint(s) && Run(s, i, j) && i <= k < j
    requires s[k].info.level == LEGACY_MAX_LEVEL == MaxLevel(InfoSeq(s[i..j]))
    ensures !MergedInfo(InfoSeq(s[i..j]), patchVersions).Contains(s[k].info)
  {
  }

  lemma SourceCoversNot(s: seq<Entry>, i: nat, j: nat, patchVersions: seq<int>, k: nat)
    requires SortedDisjoint(s) && Run(s, i, j) && i <= k < j
    requires forall k :: i <= k < j ==> s[k].info.level != LEGACY_MAX_LEVEL
    ensures !s[k].info.Contains(MergedInfo(InfoSeq(s[i..j]), patchVersions))
  {
    var sources := InfoSeq(s[i..j]);
    var top := HighestSource(s, i, j);
    MaxLevelBounds(sources);
    assert sources[k - i] == s[k].info;
  }

  /** One source: contained, unless the level has wrapped around. */
  lemma MergedContainsOne(s: seq<Entry>, i: nat, j: nat, patchVersions: seq<int>, k: nat)
    requires SortedDisjoint(s) && Run(s, i, j) && i <= k < j
    ensures var sources := InfoSeq(s[i..j]);
            && s[k].info.level <= MaxLevel(sources)
            && (MaxLevel(sources) != LEGACY_MAX_LEVEL ==> MergedInfo(sources, patchVersions).Contains(s[k].info))
  {
    var sources := InfoSeq(s[i..j]);
    var versions := Mutations(sources) + patchVersions;
    MaxLevelBounds(sources);
    MaxVersionBounds(versions);
    RunInOrder(s, i, j, k);
    assert sources[k - i] == s[k].info && versions[k - i] == s[k].info.mutation;
    assert s[i].info == sources[0] && s[j - 1].info == sources[|sources| - 1];
  }

  /** Outside the run nothing overlaps the merged part. */
  lemma MergedDisjointFromOthers(s: seq<Entry>, i: nat, j: nat, patchVersions: seq<int>, k: nat)
    requires SortedDisjoint(s) && Run(s, i, j) && k < |s| && !(i <= k < j)
    ensures MergedInfo(InfoSeq(s[i..j]), patchVersions).IsDisjoint(s[k].info)
  {
    var merged := MergedInfo(InfoSeq(s[i..j]), patchVersions);
    if s[k].info.partitionId == merged.partitionId {
      if k < i {
        Neighbours(s, k, i, j - 1);
      } else {
        Neighbours(s, i, j - 1, k);
      }
    }
  }

  /** No source has the largest 32-bit level. */
  predicate LevelsLeft(s: seq<Entry>, i: nat, j: nat)
    requires j <= |s|
  {
    forall k :: i <= k < j ==> s[k].info.level != LEGACY_MAX_LEVEL
  }

  /** Merging a run is a clean replacement exactly when a level is left: then adding the merged part succeeds and replaces
      exactly the sources, and otherwise it is refused. */
  method ReplaceByMerge(active: ActiveDataPartSet, i: nat, j: nat, patchVersions: seq<int>, name: string)
    returns (future: FutureMergedMutatedPart, outcome: AddPartOutcome, replaced: seq<string>)
    requires active.Valid() && Run(active.parts, i, j)
    modifies active
    ensures active.Valid()
    ensures future.partInfo == MergedInfo(InfoSeq(old(active.parts)[i..j]), patchVersions)
    ensures outcome == Added <==> LevelsLeft(old(active.parts), i, j)
    ensures outcome == Added ==>
      && replaced == Names(old(active.parts)[i..j])
      && active.parts == old(active.parts)[..i] + [Entry(future.partInfo, name)] + old(active.parts)[j..]
      && forall k :: i <= k < j ==> future.partInfo.Contains(old(active.parts)[k].info)
    ensures outcome == HasCovering ==> active.parts == old(active.parts)
  {
    ghost var s := active.parts;
    future := new FutureMergedMutatedPart();
    var sources := InfoSeq(active.parts[i..j]);
    forall k | 0 <= k < |sources| ensures sources[k].partitionId == sources[0].partitionId {
      RunInOrder(s, i, j, i + k);
    }
    var ok := future.Assign(sources, patchVersions);
    MergedContainsSources(s, i, j, patchVersions);
    MergeIsClean(s, i, j, patchVersions, name);
    outcome, replaced := active.AddImpl(future.partInfo, name);
  }

  /** Nothing stands in the way of the merged part and it takes exactly the place of its sources, if and only if a level is
      left. */
  lemma MergeIsClean(s: seq<Entry>, i: nat, j: nat, patchVersions: seq<int>, name: string)
    requires SortedDisjoint(s) && Run(s, i, j)
    ensures
      var merged := MergedInfo(InfoSeq(s[i..j]), patchVersions);
      && merged.WellFormed()
      && (LevelsLeft(s, i, j) <==> !Covered(s, merged) && !Intersected(s, merged))
      && (LevelsLeft(s, i, j) ==>
            && ContainedIn(s, merged) == s[i..j]
            && Inserted(Without(s, merged), Entry(merged, name)) == s[..i] + [Entry(merged, name)] + s[j..])
  {
    MergedIsValid(s, i, j, patchVersions);
    if LevelsLeft(s, i, j) {
      MergeFits(s, i, j, patchVersions, name);
    } else {
      WrappedMergeIntersects(s, i, j, patchVersions);
    }
  }

  lemma MergeFits(s: seq<Entry>, i: nat, j: nat, patchVersions: seq<int>, name: string)
    requires SortedDisjoint(s) && Run(s, i, j) && LevelsLeft(s, i, j)
    ensures var merged := MergedInfo(InfoSeq(s[i..j]), patchVersions);
            && !Covered(s, merged) && !Intersected(s, merged)
            && ContainedIn(s, merged) == s[i..j]
            && Inserted(Without(s, merged), Entry(merged, name)) == s[..i] + [Entry(merged, name)] + s[j..]
  {
    var merged := MergedInfo(InfoSeq(s[i..j]), patchVersions);
    MergedContainsSources(s, i, j, patchVersions);
    MergedPlace(s, i, j, patchVersions);
    if i > 0 { MergedDisjointFromOthers(s, i, j, patchVersions, i - 1); }
    if j < |s| { MergedDisjointFromOthers(s, i, j, patchVersions, j); }
    GapIsClean(s, merged, name, i, j);
    forall k | 0 <= k < |s| ensures !s[k].info.Contains(merged) {
      MergedNotCovered(s, i, j, patchVersions, k);
    }
  }

  /** The source of the largest level lies in the merged range and is not contained. */
  lemma WrappedMergeIntersects(s: seq<Entry>, i: nat, j: nat, patchVersions: seq<int>)
    requires SortedDisjoint(s) && Run(s, i, j) && !LevelsLeft(s, i, j)
    ensures Intersected(s, MergedInfo(InfoSeq(s[i..j]), patchVersions))
  {
    hide MergedInfo, PartInfo.Contains, PartInfo.IsDisjoint, Intersected, MaxLevel, SortedDisjoint;
    var merged := MergedInfo(InfoSeq(s[i..j]), patchVersions);
    var k :| i <= k < j && s[k].info.level == LEGACY_MAX_LEVEL;
    MergedOverlapsSource(s, i, j, patchVersions, k);
    WrappedLevelLosesSource(s, i, j, patchVersions, k);
    IntersectedAt(s, merged, k);
  }

  lemma MergedOverlapsSource(s: seq<Entry>, i: nat, j: nat, patchVersions: seq<int>, k: nat)
    requires SortedDisjoint(s) && Run(s, i, j) && i <= k < j
    ensures !MergedInfo(InfoSeq(s[i..j]), patchVersions).IsDisjoint(s[k].info)
    ensures s[k].info.level == LEGACY_MAX_LEVEL ==> MaxLevel(InfoSeq(s[i..j])) == LEGACY_MAX_LEVEL
  {
    hide MaxLevel, MaxVersion;
    var sources := InfoSeq(s[i..j]);
    MaxLevelBounds(sources);
    assert sources[k - i] == s[k].info;
    RunInOrder(s, i, j, k);
    assert s[k].info.WellFormed();
  }

  /**
   * A run of one part whose level is the largest 32-bit number. Reading such a level from a part's name gives MAX_LEVEL
   * instead, so that a part like this arises in memory only.
   */
  lemma LargestLevelExample()
    ensures
      var part := PartInfo("all", 1, 1, LEGACY_MAX_LEVEL, 0);
      var s := [Entry(part, "all_1_1_4294967295")];
      var merged := MergedInfo(InfoSeq(s[0..1]), []);
      SortedDisjoint(s) && Run(s, 0, 1) && merged.level == 0 && !merged.Contains(part) && Intersected(s, merged)
  {
    var part := PartInfo("all", 1, 1, LEGACY_MAX_LEVEL, 0);
    var s := [Entry(part, "all_1_1_4294967295")];
    assert s[0..1] == s && InfoSeq(s) == [part];
    assert [part][..0] == [];
    assert MaxLevel([part]) == LEGACY_MAX_LEVEL;
    WrappedLevelLosesSource(s, 0, 1, [], 0);
    WrappedMergeIntersects(s, 0, 1, []);
  }

  lemma MergedNotCovered(s: seq<Entry>, i: nat, j: nat, patchVersions: seq<int>, k: nat)
    requires SortedDisjoint(s) && Run(s, i, j) && k < |s|
    requires forall k :: i <= k < j ==> s[k].info.level != LEGACY_MAX_LEVEL
    ensures !s[k].info.Contains(MergedInfo(InfoSeq(s[i..j]), patchVersions))
  {
    hide MergedInfo, PartInfo.Contains, PartInfo.IsDisjoint;
    if i <= k < j {
      SourceCoversNot(s, i, j, patchVersions, k);
    } else {
      var merged := MergedInfo(InfoSeq(s[i..j]), patchVersions);
      MergedDisjointFromOthers(s, i, j, patchVersions, k);
      MergedIsValid(s, i, j, patchVersions);
      if s[k].info.Contains(merged) {
        ContainedIsNotDisjoint(s[k].info, merged);
      }
    }
  }

  /** The merged part sorts into the place of the run. */
  lemma MergedPlace(s: seq<Entry>, i: nat, j: nat, patchVersions: seq<int>)
    requires SortedDisjoint(s) && Run(s, i, j)
    ensures i <= LowerBound(s, MergedInfo(InfoSeq(s[i..j]), patchVersions)) <= j
  {
    var merged := MergedInfo(InfoSeq(s[i..j]), patchVersions);
    var k := LowerBound(s, merged);
    if k > j {
      LessTotal(merged, s[j].info);
    }
  }
}
