/** The set of active parts as a sorted map of disjoint block ranges (ActiveDataPartSet). */
module ActiveParts {
  import opened Options
  import opened Parts

  datatype Entry = Entry(info: PartInfo, name: string)

  datatype AddPartOutcome = Added | HasCovering | HasIntersectingPart

  /** Strictly sorted, pairwise disjoint, every block range non-empty. */
  predicate SortedDisjoint(s: seq<Entry>) {
    && (forall i :: 0 <= i < |s| ==> s[i].info.WellFormed())
    && (forall i, j :: 0 <= i < j < |s| ==> Less(s[i].info, s[j].info))
    && (forall i, j :: 0 <= i < j < |s| ==> s[i].info.IsDisjoint(s[j].info))
  }

  /** Position of the first entry that is not less than `p`. */
  function LowerBound(s: seq<Entry>, p: PartInfo): (k: nat)
    ensures k <= |s|
    ensures forall i :: 0 <= i < k ==> Less(s[i].info, p)
    ensures k < |s| ==> !Less(s[k].info, p)
  {
    if s == [] || !Less(s[0].info, p) then 0 else 1 + LowerBound(s[1..], p)
  }

  lemma LowerBoundRest(s: seq<Entry>, p: PartInfo, i: nat)
    requires SortedDisjoint(s) && LowerBound(s, p) <= i < |s|
    ensures !Less(s[i].info, p)
    ensures s[i].info == p || Less(p, s[i].info)
  {
    hide Less;
    var k := LowerBound(s, p);
    LessTotal(s[i].info, p);
    if k < i && Less(s[i].info, p) {
      LessTransitive(s[k].info, s[i].info, p);
    }
  }

  /** Parts of one partition are adjacent, and their block ranges ascend. */
  lemma Neighbours(s: seq<Entry>, i: nat, j: nat, k: nat)
    requires SortedDisjoint(s) && i <= j <= k < |s| && s[i].info.partitionId == s[k].info.partitionId
    ensures s[j].info.partitionId == s[i].info.partitionId
    ensures i < k ==> s[i].info.maxBlock < s[k].info.minBlock
    ensures i < j ==> s[i].info.maxBlock < s[j].info.minBlock
    ensures j < k ==> s[j].info.maxBlock < s[k].info.minBlock
  {
    if i < j < k {
      LessTransitive(s[i].info, s[j].info, s[k].info);
    }
  }

  /** An entry before the lower bound that overlaps `p` is the one right before it. */
  lemma OverlapOnLeft(s: seq<Entry>, p: PartInfo, i: nat)
    requires SortedDisjoint(s) && p.WellFormed() && i < LowerBound(s, p) && !s[i].info.IsDisjoint(p)
    ensures i == LowerBound(s, p) - 1
  {
    var k := LowerBound(s, p);
    if i < k - 1 {
      var q := s[i + 1].info;
      assert Less(s[i].info, q) && Less(q, p);
      LessTransitive(s[i].info, q, p);
    }
  }

  /** From the lower bound up to an entry that overlaps `p`, every entry overlaps `p`. */
  lemma OverlapOnRight(s: seq<Entry>, p: PartInfo, i: nat, j: nat)
    requires SortedDisjoint(s) && p.WellFormed() && LowerBound(s, p) <= i <= j < |s| && !s[j].info.IsDisjoint(p)
    ensures !s[i].info.IsDisjoint(p)
    ensures i < j ==> p.minBlock <= s[i].info.minBlock && s[i].info.maxBlock <= p.maxBlock && !s[i].info.Contains(p)
  {
    LowerBoundRest(s, p, i);
    LowerBoundRest(s, p, j);
    if i < j {
      var a, b := s[i].info, s[j].info;
      assert Less(a, b) && a.IsDisjoint(b);
      if a != p {
        LessTransitive(p, a, b);
      }
    }
  }

  /** A part that covers `p` can only be a neighbour of the place where `p` would go. */
  lemma CoveringIsNeighbour(s: seq<Entry>, p: PartInfo, i: nat)
    requires SortedDisjoint(s) && p.WellFormed() && i < |s| && s[i].info.Contains(p)
    ensures i == LowerBound(s, p) || i + 1 == LowerBound(s, p)
  {
    var k := LowerBound(s, p);
    ContainedIsNotDisjoint(s[i].info, p);
    if i < k {
      OverlapOnLeft(s, p, i);
    } else if k < i {
      OverlapOnRight(s, p, k, i);
    }
  }

  predicate Covered(s: seq<Entry>, p: PartInfo) {
    exists i :: 0 <= i < |s| && s[i].info.Contains(p)
  }

  /** Some entry overlaps `p` without being contained in it. */
  predicate Intersected(s: seq<Entry>, p: PartInfo) {
    exists i :: 0 <= i < |s| && !p.IsDisjoint(s[i].info) && !p.Contains(s[i].info)
  }

  /** The entries contained in `p`, in order. */
  function ContainedIn(s: seq<Entry>, p: PartInfo): seq<Entry> {
    if s == [] then []
    else (if p.Contains(s[0].info) then [s[0]] else []) + ContainedIn(s[1..], p)
  }

  /** The entries not contained in `p`, in order. */
  function Without(s: seq<Entry>, p: PartInfo): seq<Entry> {
    if s == [] then []
    else (if p.Contains(s[0].info) then [] else [s[0]]) + Without(s[1..], p)
  }

  lemma {:induction false} FiltersConcat(a: seq<Entry>, b: seq<Entry>, p: PartInfo)
    ensures ContainedIn(a + b, p) == ContainedIn(a, p) + ContainedIn(b, p)
    ensures Without(a + b, p) == Without(a, p) + Without(b, p)
  {
    if a == [] {
      assert a + b == b;
    } else {
      assert (a + b)[1..] == a[1..] + b;
      FiltersConcat(a[1..], b, p);
    }
  }

  lemma {:induction false} FiltersUniform(a: seq<Entry>, p: PartInfo, contained: bool)
    requires forall i :: 0 <= i < |a| ==> p.Contains(a[i].info) == contained
    ensures ContainedIn(a, p) == if contained then a else []
    ensures Without(a, p) == if contained then [] else a
  {
    if a != [] {
      FiltersUniform(a[1..], p, contained);
    }
  }

  /** Nothing that sorts from `p` on and lies before a contained entry is itself not contained. */
  predicate NoObstacle(s: seq<Entry>, p: PartInfo) {
    forall i, j :: LowerBound(s, p) <= i < j < |s| && p.Contains(s[j].info) ==> p.Contains(s[i].info)
  }

  function Names(s: seq<Entry>): seq<string> {
    seq(|s|, i requires 0 <= i < |s| => s[i].name)
  }

  function Inserted(s: seq<Entry>, e: Entry): seq<Entry> {
    var k := LowerBound(s, e.info);
    s[..k] + [e] + s[k..]
  }

  /** The longest run of entries contained in `p` around the place of `p`. */
  predicate Run(s: seq<Entry>, p: PartInfo, lo: nat, hi: nat) {
    && lo <= LowerBound(s, p) <= hi <= |s|
    && (forall i :: lo <= i < hi ==> p.Contains(s[i].info))
    && (lo > 0 ==> !p.Contains(s[lo - 1].info))
    && (hi < |s| ==> !p.Contains(s[hi].info))
  }

  lemma RunUnique(s: seq<Entry>, p: PartInfo, lo: nat, hi: nat, begin: nat, end: nat)
    requires Run(s, p, lo, hi) && Run(s, p, begin, end)
    ensures lo == begin && hi == end
  {
    hide PartInfo.Contains;
  }

  ghost predicate IsRun(s: seq<Entry>, p: PartInfo, run: seq<Entry>) {
    exists lo: nat, hi: nat :: Run(s, p, lo, hi) && run == s[lo..hi]
  }

  predicate Clash(p: PartInfo, q: PartInfo) {
    !p.IsDisjoint(q) && !p.Contains(q)
  }

  /** What is left after an intersection: everything, if it is with the entry before the place of `p`; otherwise the run is
      gone and the entry behind it intersects. */
  ghost predicate Halted(before: seq<Entry>, after: seq<Entry>, replaced: seq<string>, p: PartInfo) {
    var k := LowerBound(before, p);
    if k > 0 && Clash(p, before[k - 1].info) then after == before && replaced == []
    else exists lo: nat, hi: nat ::
        && Run(before, p, lo, hi) && hi < |before| && Clash(p, before[hi].info)
        && after == before[..lo] + before[hi..] && replaced == Names(before[lo..hi])
  }

  lemma ErasedStaysValid(before: seq<Entry>, after: seq<Entry>, lo: nat, hi: nat)
    requires SortedDisjoint(before) && lo <= hi <= |before| && after == before[..lo] + before[hi..]
    ensures SortedDisjoint(after)
  {
    hide Less, PartInfo.IsDisjoint, PartInfo.WellFormed;
  }

  lemma HaltedOnRight(before: seq<Entry>, after: seq<Entry>, replaced: seq<string>, p: PartInfo, lo: nat, hi: nat)
    requires SortedDisjoint(before) && p.WellFormed() && lo <= LowerBound(before, p) <= hi < |before|
    requires forall i :: lo <= i < hi ==> p.Contains(before[i].info)
    requires lo == 0 || p.IsDisjoint(before[lo - 1].info)
    requires Clash(p, before[hi].info)
    requires after == before[..lo] + before[hi..] && replaced == Names(before[lo..hi])
    ensures Halted(before, after, replaced, p)
  {
    hide Less, Names, SortedDisjoint, PartInfo.Contains, PartInfo.IsDisjoint;
    if lo > 0 && p.Contains(before[lo - 1].info) {
      NotDisjointInside(before, p, lo - 1);
      DisjointSymmetric(p, before[lo - 1].info);
    }
    assert Run(before, p, lo, hi);
  }

  /** The entry that stops the first loop is the first one it meets. */
  lemma HaltedOnLeft(before: seq<Entry>, p: PartInfo, it: nat)
    requires SortedDisjoint(before) && p.WellFormed() && 0 < it <= LowerBound(before, p) && Clash(p, before[it - 1].info)
    ensures it == LowerBound(before, p)
    ensures Halted(before, before, [], p)
  {
    hide Less, SortedDisjoint, PartInfo.Contains, PartInfo.IsDisjoint;
    DisjointSymmetric(p, before[it - 1].info);
    OverlapOnLeft(before, p, it - 1);
  }

  /** A run `lo..hi` of entries contained in `p`, around the place of `p`, with `p` disjoint from both ends. */
  predicate CleanGap(s: seq<Entry>, p: PartInfo, lo: nat, hi: nat) {
    && lo <= LowerBound(s, p) <= hi <= |s|
    && (forall i :: lo <= i < hi ==> p.Contains(s[i].info))
    && (lo > 0 ==> p.IsDisjoint(s[lo - 1].info))
    && (hi < |s| ==> p.IsDisjoint(s[hi].info))
  }

  lemma OutsideGap(s: seq<Entry>, p: PartInfo, lo: nat, hi: nat, i: nat)
    requires SortedDisjoint(s) && p.WellFormed() && CleanGap(s, p, lo, hi) && i < |s| && !(lo <= i < hi)
    ensures p.IsDisjoint(s[i].info) && !p.Contains(s[i].info)
    ensures if i < lo then Less(s[i].info, p) else Less(p, s[i].info)
  {
    if i < lo {
      if !p.IsDisjoint(s[i].info) {
        OverlapOnLeft(s, p, i);
      }
    } else {
      if !p.IsDisjoint(s[i].info) {
        OverlapOnRight(s, p, hi, i);
      }
      LowerBoundRest(s, p, i);
    }
  }

  lemma FilterSlice(s: seq<Entry>, p: PartInfo, i: nat, j: nat, contained: bool)
    requires i <= j <= |s| && forall k :: i <= k < j ==> p.Contains(s[k].info) == contained
    ensures ContainedIn(s[i..j], p) == if contained then s[i..j] else []
    ensures Without(s[i..j], p) == if contained then [] else s[i..j]
  {
    hide PartInfo.Contains, ContainedIn, Without;
    FiltersUniform(s[i..j], p, contained);
  }

  lemma FiltersAroundGap(s: seq<Entry>, p: PartInfo, lo: nat, hi: nat)
    requires lo <= hi <= |s|
    requires forall i :: 0 <= i < |s| ==> p.Contains(s[i].info) == (lo <= i < hi)
    ensures ContainedIn(s, p) == s[lo..hi] && Without(s, p) == s[..lo] + s[hi..]
  {
    hide PartInfo.Contains, ContainedIn, Without;
    FilterSlice(s, p, 0, lo, false);
    FilterSlice(s, p, lo, hi, true);
    FilterSlice(s, p, hi, |s|, false);
    assert s == s[0..lo] + s[lo..hi] + s[hi..|s|];
    FiltersConcat(s[0..lo] + s[lo..hi], s[hi..|s|], p);
    FiltersConcat(s[0..lo], s[lo..hi], p);
  }

  lemma GapFilters(s: seq<Entry>, p: PartInfo, lo: nat, hi: nat)
    requires SortedDisjoint(s) && p.WellFormed() && CleanGap(s, p, lo, hi)
    ensures !Intersected(s, p)
    ensures ContainedIn(s, p) == s[lo..hi] && Without(s, p) == s[..lo] + s[hi..]
  {
    forall i | 0 <= i < |s| && !(lo <= i < hi) ensures p.IsDisjoint(s[i].info) && !p.Contains(s[i].info) {
      OutsideGap(s, p, lo, hi, i);
    }
    FiltersAroundGap(s, p, lo, hi);
  }

  /** Nothing intersects `p`, and putting it into the gap is the specified insertion. */
  lemma GapIsClean(s: seq<Entry>, p: PartInfo, name: string, lo: nat, hi: nat)
    requires SortedDisjoint(s) && p.WellFormed() && CleanGap(s, p, lo, hi)
    ensures !Intersected(s, p)
    ensures ContainedIn(s, p) == s[lo..hi] && Without(s, p) == s[..lo] + s[hi..]
    ensures SortedDisjoint(s[..lo] + [Entry(p, name)] + s[hi..])
    ensures s[..lo] + [Entry(p, name)] + s[hi..] == Inserted(Without(s, p), Entry(p, name))
  {
    GapFilters(s, p, lo, hi);
    GapSorted(s, p, name, lo, hi);
    var rest := s[..lo] + s[hi..];
    forall i | 0 <= i < |s| && !(lo <= i < hi)
      ensures if i < lo then Less(s[i].info, p) else Less(p, s[i].info)
    {
      OutsideGap(s, p, lo, hi, i);
    }
    if lo < |rest| {
      LessTotal(rest[lo].info, p);
    }
    assert rest[..lo] == s[..lo] && rest[lo..] == s[hi..];
  }

  lemma DisjointSymmetric(a: PartInfo, b: PartInfo)
    ensures a.IsDisjoint(b) == b.IsDisjoint(a)
  {
  }

  lemma GapSorted(s: seq<Entry>, p: PartInfo, name: string, lo: nat, hi: nat)
    requires SortedDisjoint(s) && p.WellFormed() && lo <= hi <= |s| && CleanGap(s, p, lo, hi)
    ensures SortedDisjoint(s[..lo] + [Entry(p, name)] + s[hi..])
  {
    hide Less, PartInfo.IsDisjoint, PartInfo.Contains, CleanGap;
    var a, b, e := s[..lo], s[hi..], Entry(p, name);
    forall i | 0 <= i < lo ensures a[i].info.IsDisjoint(p) && Less(a[i].info, p) {
      OutsideGap(s, p, lo, hi, i);
      DisjointSymmetric(p, s[i].info);
    }
    forall i, j | 0 <= i < |a + [e]| && 0 <= j < |b|
      ensures (a + [e])[i].info.IsDisjoint(b[j].info) && Less((a + [e])[i].info, b[j].info)
    {
      OutsideGap(s, p, lo, hi, hi + j);
      if i < lo {
        assert (a + [e])[i] == s[i] && b[j] == s[hi + j];
      } else {
        assert (a + [e])[i] == e;
      }
    }
  }

  lemma ReversedNamesCons(s: seq<Entry>, i: nat, k: nat)
    requires i <= k <= |s|
    ensures ReversedNames(s[i..k]) == if i == k then [] else ReversedNames(s[i + 1..k]) + [s[i].name]
  {
    if i < k {
      assert s[i..k][1..] == s[i + 1..k];
    }
  }

  class ActiveDataPartSet {
    var parts: seq<Entry>

    ghost predicate Valid()
      reads this
    {
      SortedDisjoint(parts)
    }

    lemma ValidIsSorted()
      ensures Valid() <==> SortedDisjoint(parts)
    {
    }

    constructor ()
      ensures Valid() && parts == []
    {
      parts := [];
    }

    /** Looks at the two neighbours only, yet misses no covering part. */
    method GetContainingPartImpl(p: PartInfo) returns (found: Option<nat>)
      requires Valid() && p.WellFormed()
      ensures found.Some? ==> found.value < |parts| && parts[found.value].info.Contains(p)
      ensures found.None? ==> !Covered(parts, p)
    {
      var it := LowerBound(parts, p);
      forall i | 0 <= i < |parts| && parts[i].info.Contains(p)
        ensures i == LowerBound(parts, p) || i + 1 == LowerBound(parts, p)
      {
        CoveringIsNeighbour(parts, p, i);
      }
      if it < |parts| && parts[it].info.Contains(p) {
        return Some(it);
      }
      if it > 0 {
        it := it - 1;
        if parts[it].info.Contains(p) {
          return Some(it);
        }
      }
      return None;
    }

    /** The first loop: from the place of `p` to the left. `it` is where the erasing stopped; the names are put into key order
        only if nothing intersects. */
    method EraseOnLeft(p: PartInfo) returns (it: nat, clear: bool, replaced: seq<string>)
      requires Valid() && p.WellFormed()
      modifies this
      ensures it <= LowerBound(old(parts), p) <= |old(parts)|
      ensures parts == old(parts)[..it] + old(parts)[LowerBound(old(parts), p)..]
      ensures forall i :: it <= i < LowerBound(old(parts), p) ==> p.Contains(old(parts)[i].info)
      ensures replaced == if clear then Names(old(parts)[it..LowerBound(old(parts), p)])
                          else ReversedNames(old(parts)[it..LowerBound(old(parts), p)])
      ensures clear ==> it == 0 || p.IsDisjoint(old(parts)[it - 1].info)
      ensures !clear ==> it > 0 && Clash(p, old(parts)[it - 1].info)
    {
      hide SortedDisjoint, PartInfo.Contains, PartInfo.IsDisjoint, Less, LowerBound, ReversedNames, Names, Reversed;
      var before := parts;
      it := LowerBound(parts, p);
      ghost var k := it;
      ReversedNamesCons(before, k, k);
      replaced, clear := [], true;
      while it != 0
        invariant 0 <= it <= k <= |before|
        invariant clear
        invariant parts == before[..it] + before[k..]
        invariant forall i :: it <= i < k ==> p.Contains(before[i].info)
        invariant replaced == ReversedNames(before[it..k])
      {
        it := it - 1;
        assert parts[it] == before[it];
        if !p.Contains(parts[it].info) {
          clear := p.IsDisjoint(parts[it].info);
          it := it + 1;
          if !clear {
            return;
          }
          break;
        }
        replaced := replaced + [before[it].name];
        ReversedNamesCons(before, it, k);
        parts := parts[..it] + parts[it + 1..];
      }
      ReversedTwice(before[it..k]);
      replaced := Reversed(replaced);
    }

    /** The second loop: from where the first one stopped to the right. */
    method EraseOnRight(p: PartInfo, it: nat, replacedOnLeft: seq<string>, ghost before: seq<Entry>, ghost k: nat)
      returns (clear: bool, replaced: seq<string>, ghost hi: nat)
      requires it <= k <= |before| && parts == before[..it] + before[k..]
      requires forall i :: it <= i < k ==> p.Contains(before[i].info)
      requires replacedOnLeft == Names(before[it..k])
      modifies this
      ensures k <= hi <= |before| && parts == before[..it] + before[hi..]
      ensures forall i :: it <= i < hi ==> p.Contains(before[i].info)
      ensures replaced == Names(before[it..hi])
      ensures clear <==> hi == |before| || p.IsDisjoint(before[hi].info)
      ensures !clear ==> hi < |before| && Clash(p, before[hi].info)
    {
      hide PartInfo.Contains, PartInfo.IsDisjoint;
      replaced, hi := replacedOnLeft, k;
      while it != |parts| && p.Contains(parts[it].info)
        invariant it <= k <= hi <= |before|
        invariant parts == before[..it] + before[hi..]
        invariant forall i :: it <= i < hi ==> p.Contains(before[i].info)
        invariant replaced == Names(before[it..hi])
        decreases |before| - hi
      {
        assert parts[it] == before[hi];
        replaced := replaced + [parts[it].name];
        assert before[it..hi + 1] == before[it..hi] + [before[hi]];
        parts := parts[..it] + parts[it + 1..];
        hi := hi + 1;
      }
      assert it < |parts| ==> parts[it] == before[hi];
      clear := it == |parts| || p.IsDisjoint(parts[it].info);
    }

    /** The part is added exactly when nothing covers it and every overlapping part is contained in it; then it replaces
        the contained parts. The set stays sorted and disjoint in every case. */
    method AddImpl(p: PartInfo, name: string) returns (outcome: AddPartOutcome, replaced: seq<string>)
      requires Valid() && p.WellFormed()
      modifies this
      ensures Valid()
      ensures outcome == if Covered(old(parts), p) then HasCovering
                         else if Intersected(old(parts), p) then HasIntersectingPart else Added
      ensures outcome == HasCovering ==> parts == old(parts)
      ensures outcome == HasIntersectingPart ==> Halted(old(parts), parts, replaced, p)
      ensures outcome == Added ==>
        && parts == Inserted(Without(old(parts), p), Entry(p, name))
        && replaced == Names(ContainedIn(old(parts), p))
    {
      hide PartInfo.Contains, PartInfo.IsDisjoint, SortedDisjoint, Intersected, Covered, Inserted, Halted, LowerBound,
           ContainedIn, Without, Names, Less;
      var covering := GetContainingPartImpl(p);
      if covering.Some? {
        CoveredAt(parts, p, covering.value);
        return HasCovering, [];
      }
      ghost var before := parts;
      ghost var k := LowerBound(before, p);
      var it, clear;
      it, clear, replaced := EraseOnLeft(p);
      if !clear {
        HaltedOnLeft(before, p, it);
        IntersectedAt(before, p, it - 1);
        assert before[k..k] == [] && parts == before;
        return HasIntersectingPart, replaced;
      }
      ghost var hi;
      clear, replaced, hi := EraseOnRight(p, it, replaced, before, k);
      if !clear {
        ErasedStaysValid(before, parts, it, hi);
        HaltedOnRight(before, parts, replaced, p, it, hi);
        IntersectedAt(before, p, hi);
        return HasIntersectingPart, replaced;
      }
      GapIsClean(before, p, name, it, hi);
      parts := parts[..it] + [Entry(p, name)] + parts[it..];
      assert parts == before[..it] + [Entry(p, name)] + before[hi..];
      return Added, replaced;
    }

    method Add(p: PartInfo, name: string) returns (added: Option<bool>, replaced: seq<string>)
      requires Valid() && p.WellFormed()
      modifies this
      ensures Valid()
      ensures added.None? <==> !Covered(old(parts), p) && Intersected(old(parts), p)
      ensures added.None? ==> Halted(old(parts), parts, replaced, p)
      ensures added.Some? ==> (added.value <==> !Covered(old(parts), p))
      ensures added.Some? && !added.value ==> parts == old(parts)
      ensures added.Some? && added.value ==>
        && parts == Inserted(Without(old(parts), p), Entry(p, name))
        && replaced == Names(ContainedIn(old(parts), p))
    {
      var outcome;
      outcome, replaced := AddImpl(p, name);
      match outcome
      case HasIntersectingPart => return None, replaced;
      case HasCovering => return Some(false), replaced;
      case Added => return Some(true), replaced;
    }

    /** Whether the part would intersect an active one: true exactly when the source throws. */
    method CheckIntersectingParts(p: PartInfo) returns (throws: bool)
      requires Valid() && p.WellFormed()
      ensures throws <==> Intersected(parts, p)
    {
      hide PartInfo.Contains, PartInfo.IsDisjoint, SortedDisjoint, Intersected, Less;
      var it := LowerBound(parts, p);
      ghost var k := it;
      while it != 0
        invariant 0 <= it <= k <= |parts|
        invariant forall i :: it <= i < k ==> p.Contains(parts[i].info)
      {
        it := it - 1;
        if !p.Contains(parts[it].info) {
          if !p.IsDisjoint(parts[it].info) {
            IntersectedAt(parts, p, it);
            return true;
          }
          it := it + 1;
          break;
        }
      }
      ghost var lo := it;
      // The source goes right from where it stopped on the left.
      while it != |parts| && p.Contains(parts[it].info)
        invariant lo <= it <= |parts|
        invariant forall i :: lo <= i < it ==> p.Contains(parts[i].info)
      {
        it := it + 1;
      }
      if it != |parts| && !p.IsDisjoint(parts[it].info) {
        IntersectedAt(parts, p, it);
        return true;
      }
      assert k <= it;
      assert CleanGap(parts, p, lo, it);
      GapFilters(parts, p, lo, it);
      return false;
    }

    /** The contained parts next to the place of `p`, in order: all of them exactly when nothing that is not contained
        stands between. */
    method GetPartsCoveredByImpl(p: PartInfo) returns (covered: seq<Entry>)
      requires Valid() && p.WellFormed()
      ensures IsRun(parts, p, covered)
      ensures covered <= ContainedIn(parts, p)
      ensures covered == ContainedIn(parts, p) <==> NoObstacle(parts, p)
    {
      hide PartInfo.Contains, PartInfo.IsDisjoint, SortedDisjoint, Less, ContainedIn, NoObstacle;
      var middle := LowerBound(parts, p);
      var begin := middle;
      while begin != 0
        invariant 0 <= begin <= middle <= |parts|
        invariant forall i :: begin <= i < middle ==> p.Contains(parts[i].info)
      {
        var prev := begin - 1;
        if !p.Contains(parts[prev].info) {
          if parts[prev].info.Contains(p) {
            CoveringExcludes(parts, p, prev);
            NothingAround(parts, p);
            return [];
          }
          break;
        }
        begin := prev;
      }
      var end := middle;
      while end != |parts|
        invariant middle <= end <= |parts|
        invariant forall i :: begin <= i < end ==> p.Contains(parts[i].info)
      {
        if !p.Contains(parts[end].info) {
          if parts[end].info.Contains(p) {
            CoveringExcludes(parts, p, end);
            NothingAround(parts, p);
            return [];
          }
          break;
        }
        end := end + 1;
      }
      covered := parts[begin..end];
      assert Run(parts, p, begin, end);
      CoveredRun(parts, p, begin, end);
    }

    /** Erase one part by its key. */
    method Remove(p: PartInfo) returns (removed: bool)
      requires Valid()
      modifies this
      ensures Valid()
      ensures removed <==> p in Infos(old(parts))
      ensures parts == RemoveEntry(old(parts), p) && Infos(parts) == Infos(old(parts)) - {p}
    {
      removed := p in Infos(parts);
      RemoveEntryCorrect(parts, p);
      parts := RemoveEntry(parts, p);
    }

    /** Remove a part and the parts it covers. The answer is always false: an active part covers itself, so it is erased
        twice, and an inactive one is not there to erase. */
    method RemovePartAndCoveredParts(p: PartInfo) returns (result: bool)
      requires Valid() && p.WellFormed()
      modifies this
      ensures Valid()
      ensures !result
      ensures exists run :: IsRun(old(parts), p, run) && Infos(parts) == Infos(old(parts)) - Infos(run) - {p}
      ensures Infos(parts) == Outside(Infos(old(parts)), p) <==> NoObstacle(old(parts), p)
      ensures Outside(Infos(old(parts)), p) <= Infos(parts) <= Infos(old(parts)) - {p}
    {
      hide *;
      ValidIsSorted();
      ghost var before := parts;
      var covered := GetPartsCoveredByImpl(p);
      FilterInfos(before, p);
      InfosEmpty();
      ActiveIsCovered(before, p, covered);
      result := Remove(p);
      ghost var started := result;
      for i := 0 to |covered|
        invariant Valid()
        invariant Infos(parts) == Infos(before) - {p} - Infos(covered[..i])
        invariant !started ==> !result
        invariant p in Infos(covered[..i]) ==> !result
      {
        InfosPrefix(covered, i);
        var removed := Remove(covered[i].info);
        result := result && removed;
      }
      assert covered[..|covered|] == covered;
      assert Infos(parts) == Infos(before) - Infos(covered) - {p};
      CoveredMisses(before, p, covered);
    }

    /** Remove only the parts that `p` covers, not `p` itself. */
    method RemovePartsCoveredBy(p: PartInfo) returns (result: bool)
      requires Valid() && p.WellFormed()
      modifies this
      ensures Valid()
      ensures result
      ensures exists run :: IsRun(old(parts), p, run) && Infos(parts) == Infos(old(parts)) - (Infos(run) - {p})
      ensures Infos(parts) == Infos(old(parts)) - (Inside(Infos(old(parts)), p) - {p}) <==> NoObstacle(old(parts), p)
      ensures Infos(old(parts)) - (Inside(Infos(old(parts)), p) - {p}) <= Infos(parts) <= Infos(old(parts))
    {
      hide *;
      ValidIsSorted();
      ghost var before := parts;
      var covered := GetPartsCoveredByImpl(p);
      result := true;
      CoveredDistinct(before, p);
      FilterInfos(before, p);
      InfosEmpty();
      for i := 0 to |covered|
        invariant Valid() && result
        invariant Infos(parts) == Infos(before) - (Infos(covered[..i]) - {p})
      {
        InfosPrefix(covered, i);
        if covered[i].info != p {
          StillThere(before, p, covered, i);
          var removed := Remove(covered[i].info);
          result := result && removed;
        }
      }
      assert covered[..|covered|] == covered;
      CoveredMisses(before, p, covered);
      if !NoObstacle(before, p) {
        var q :| q in Inside(Infos(before), p) && q != p && q !in Infos(covered);
        assert q in Infos(parts);
      }
    }
  }

  /** What is found is contained; behind an obstacle at least one contained part other than `p` is missed. */
  lemma CoveredMisses(s: seq<Entry>, p: PartInfo, covered: seq<Entry>)
    requires SortedDisjoint(s) && covered <= ContainedIn(s, p) && (covered == ContainedIn(s, p) <==> NoObstacle(s, p))
    ensures Infos(covered) <= Inside(Infos(s), p) <= Infos(s)
    ensures NoObstacle(s, p) ==> Infos(covered) == Inside(Infos(s), p)
    ensures !NoObstacle(s, p) ==> exists q :: q in Inside(Infos(s), p) && q != p && q !in Infos(covered)
    ensures forall q :: q in Outside(Infos(s), p) <==> q in Infos(s) && q !in Inside(Infos(s), p)
  {
    hide Less, SortedDisjoint, ContainedIn, NoObstacle, PartInfo.Contains;
    var all := ContainedIn(s, p);
    FilterInfos(s, p);
    InfosConcat(covered, all[|covered|..]);
    assert all == covered + all[|covered|..];
    if !NoObstacle(s, p) {
      var more := all[..|covered| + 1];
      CoveredDistinct(s, p);
      StillThere(s, p, more, |covered|);
      assert more[..|covered|] == covered;
      if p in Infos(s) {
        CoversItself(s, p);
      }
    }
  }

  lemma {:induction false} CoveredDistinct(s: seq<Entry>, p: PartInfo)
    requires SortedDisjoint(s)
    ensures SortedDisjoint(ContainedIn(s, p)) && forall e :: e in ContainedIn(s, p) ==> e in s
  {
    hide Less, PartInfo.IsDisjoint, PartInfo.WellFormed, PartInfo.Contains;
    if s != [] {
      var rest := s[1..];
      assert forall j :: 0 <= j < |rest| ==> rest[j] == s[j + 1];
      TailSorted(s);
      CoveredDistinct(rest, p);
      SubSorted(s[0], rest, ContainedIn(rest, p));
    }
  }

  lemma StillThere(s: seq<Entry>, p: PartInfo, covered: seq<Entry>, i: nat)
    requires SortedDisjoint(ContainedIn(s, p)) && covered <= ContainedIn(s, p) && i < |covered|
    requires forall e :: e in ContainedIn(s, p) ==> e in s
    ensures covered[i].info in Infos(s) && covered[i].info !in Infos(covered[..i])
  {
    var all := ContainedIn(s, p);
    assert covered[i] == all[i] && all[i] in all;
    forall e | e in covered[..i] ensures e.info != covered[i].info {
      var j :| 0 <= j < i && covered[j] == e;
      assert Less(all[j].info, all[i].info);
      LessTotal(all[j].info, all[i].info);
    }
  }

  lemma ActiveIsCovered(s: seq<Entry>, p: PartInfo, covered: seq<Entry>)
    requires SortedDisjoint(s) && (covered == ContainedIn(s, p) <==> NoObstacle(s, p))
    ensures p in Infos(s) ==> p in Infos(covered)
  {
    hide *;
    if p in Infos(s) {
      CoversItself(s, p);
    }
  }

  lemma CoversItself(s: seq<Entry>, p: PartInfo)
    requires SortedDisjoint(s) && p in Infos(s)
    ensures NoObstacle(s, p) && p in Infos(ContainedIn(s, p))
  {
    hide Less, Infos, SortedDisjoint, ContainedIn;
    var i := InfosWitness(s, p);
    forall j | 0 <= j < |s| && p.Contains(s[j].info) ensures j == i {
      DisjointEntries(s, i, j);
      DisjointEntries(s, j, i);
    }
    PlaceOfActive(s, p, i);
    FilterInfos(s, p);
    ContainsIsPartialOrder(p, p, p);
  }

  lemma PlaceOfActive(s: seq<Entry>, p: PartInfo, i: nat)
    requires SortedDisjoint(s) && i < |s| && s[i].info == p
    ensures LowerBound(s, p) == i
  {
    hide Less;
    LessTotal(p, p);
  }

  lemma IntersectedAt(s: seq<Entry>, p: PartInfo, i: nat)
    requires i < |s| && !p.IsDisjoint(s[i].info) && !p.Contains(s[i].info)
    ensures Intersected(s, p)
  {
  }

  lemma {:induction false} ContainedInNone(s: seq<Entry>, p: PartInfo)
    ensures ContainedIn(s, p) == [] <==> forall i :: 0 <= i < |s| ==> !p.Contains(s[i].info)
  {
    if s != [] {
      ContainedInNone(s[1..], p);
      assert forall i :: 1 <= i < |s| ==> s[i] == s[1..][i - 1];
    }
  }

  lemma DisjointEntries(s: seq<Entry>, i: nat, j: nat)
    requires SortedDisjoint(s) && i < |s| && j < |s|
    ensures i == j || s[i].info.IsDisjoint(s[j].info)
    ensures s[j].info.WellFormed()
  {
  }

  /** Under a strictly covering part nothing is contained in `p`. */
  lemma CoveringExcludes(s: seq<Entry>, p: PartInfo, i: nat)
    requires SortedDisjoint(s) && p.WellFormed() && i < |s| && s[i].info.Contains(p) && !p.Contains(s[i].info)
    ensures ContainedIn(s, p) == [] && NoObstacle(s, p)
  {
    forall j | 0 <= j < |s| ensures !p.Contains(s[j].info) {
      DisjointEntries(s, i, j);
    }
    ContainedInNone(s, p);
  }

  lemma NothingAround(s: seq<Entry>, p: PartInfo)
    requires ContainedIn(s, p) == []
    ensures IsRun(s, p, [])
  {
    hide Less, PartInfo.Contains, LowerBound, ContainedIn;
    ContainedInNone(s, p);
    var k := LowerBound(s, p);
    assert Run(s, p, k, k) && s[k..k] == [];
  }

  lemma CoveredRun(s: seq<Entry>, p: PartInfo, begin: nat, end: nat)
    requires SortedDisjoint(s) && p.WellFormed() && begin <= LowerBound(s, p) <= end <= |s|
    requires forall i :: begin <= i < end ==> p.Contains(s[i].info)
    requires begin > 0 ==> !p.Contains(s[begin - 1].info)
    requires end < |s| ==> !p.Contains(s[end].info)
    ensures s[begin..end] <= ContainedIn(s, p)
    ensures s[begin..end] == ContainedIn(s, p) <==> NoObstacle(s, p)
  {
    hide Less, PartInfo.Contains, PartInfo.IsDisjoint, ContainedIn, SortedDisjoint, NoObstacle;
    forall i | 0 <= i < begin ensures !p.Contains(s[i].info) {
      LeftNotContained(s, p, begin, i);
    }
    RunFilter(s, p, begin, end);
    ContainedInNone(s[end..], p);
    TailObstacle(s, p, end);
  }

  lemma LeftNotContained(s: seq<Entry>, p: PartInfo, begin: nat, i: nat)
    requires SortedDisjoint(s) && p.WellFormed() && i < begin <= LowerBound(s, p)
    requires !p.Contains(s[begin - 1].info)
    ensures !p.Contains(s[i].info)
  {
    hide Less, PartInfo.Contains, PartInfo.IsDisjoint;
    if p.Contains(s[i].info) {
      NotDisjointInside(s, p, i);
      OverlapOnLeft(s, p, i);
    }
  }

  lemma TailObstacle(s: seq<Entry>, p: PartInfo, end: nat)
    requires LowerBound(s, p) <= end <= |s|
    requires forall i :: LowerBound(s, p) <= i < end ==> p.Contains(s[i].info)
    requires end < |s| ==> !p.Contains(s[end].info)
    ensures NoObstacle(s, p) <==> forall i :: 0 <= i < |s[end..]| ==> !p.Contains(s[end..][i].info)
  {
    hide Less, PartInfo.Contains;
    if NoObstacle(s, p) {
      forall i | 0 <= i < |s[end..]| ensures !p.Contains(s[end..][i].info) {
        assert s[end..][i] == s[end + i];
      }
    } else {
      var i, j :| LowerBound(s, p) <= i < j < |s| && p.Contains(s[j].info) && !p.Contains(s[i].info);
      assert s[end..][j - end] == s[j];
    }
  }

  lemma RunFilter(s: seq<Entry>, p: PartInfo, begin: nat, end: nat)
    requires begin <= end <= |s|
    requires forall i :: 0 <= i < end ==> p.Contains(s[i].info) == (begin <= i)
    ensures ContainedIn(s, p) == s[begin..end] + ContainedIn(s[end..], p)
  {
    hide PartInfo.Contains, ContainedIn, Without;
    FilterSlice(s, p, 0, begin, false);
    FilterSlice(s, p, begin, end, true);
    assert s == s[0..begin] + s[begin..end] + s[end..];
    FiltersConcat(s[0..begin] + s[begin..end], s[end..], p);
    FiltersConcat(s[0..begin], s[begin..end], p);
  }

  /** Two active parts inside [0, 10] of which the first has too high a level to be contained: it hides the second. */
  lemma ObstacleExample()
    ensures var first := Entry(PartInfo("all", 1, 3, 5, 0), "all_1_3_5");
            var second := Entry(PartInfo("all", 4, 6, 0, 0), "all_4_6_0");
            var p := PartInfo("all", 0, 10, 1, 0);
            SortedDisjoint([first, second]) && !NoObstacle([first, second], p) && p.Contains(second.info)
  {
    var first := Entry(PartInfo("all", 1, 3, 5, 0), "all_1_3_5");
    var second := Entry(PartInfo("all", 4, 6, 0, 0), "all_4_6_0");
    var p := PartInfo("all", 0, 10, 1, 0);
    var s := [first, second];
    assert LowerBound(s, p) == 0;
    assert p.Contains(s[1].info) && !p.Contains(s[0].info);
  }

  lemma NotDisjointInside(s: seq<Entry>, p: PartInfo, i: nat)
    requires SortedDisjoint(s) && p.WellFormed() && i < |s| && p.Contains(s[i].info)
    ensures !s[i].info.IsDisjoint(p)
  {
  }

  /** A caller rules obstacles out by first checking that nothing intersects the part. */
  lemma CheckedHasNoObstacle(s: seq<Entry>, p: PartInfo)
    requires SortedDisjoint(s) && p.WellFormed() && !Intersected(s, p)
    ensures NoObstacle(s, p)
  {
    forall i, j | LowerBound(s, p) <= i < j < |s| && p.Contains(s[j].info) ensures p.Contains(s[i].info) {
      NotDisjointInside(s, p, j);
      OverlapOnRight(s, p, i, j);
      DisjointSymmetric(s[i].info, p);
    }
  }

  lemma CoveredAt(s: seq<Entry>, p: PartInfo, i: nat)
    requires i < |s| && s[i].info.Contains(p)
    ensures Covered(s, p)
  {
  }

  function Reversed(s: seq<string>): seq<string> {
    if s == [] then [] else [s[|s| - 1]] + Reversed(s[..|s| - 1])
  }

  function ReversedNames(s: seq<Entry>): seq<string> {
    if s == [] then [] else ReversedNames(s[1..]) + [s[0].name]
  }

  lemma {:induction false} ReversedTwice(s: seq<Entry>)
    ensures Reversed(ReversedNames(s)) == Names(s)
  {
    if s != [] {
      ReversedTwice(s[1..]);
      assert ReversedNames(s)[..|ReversedNames(s)| - 1] == ReversedNames(s[1..]);
    }
  }

  function RemoveEntry(s: seq<Entry>, p: PartInfo): seq<Entry> {
    if s == [] then []
    else if s[0].info == p then s[1..]
    else [s[0]] + RemoveEntry(s[1..], p)
  }

  function Infos(s: seq<Entry>): set<PartInfo> {
    set e | e in s :: e.info
  }

  /** The parts that `p` contains, and those it does not. */
  function Inside(f: set<PartInfo>, p: PartInfo): set<PartInfo> {
    set q | q in f && p.Contains(q)
  }

  function Outside(f: set<PartInfo>, p: PartInfo): set<PartInfo> {
    set q | q in f && !p.Contains(q)
  }

  lemma InfosConcat(a: seq<Entry>, b: seq<Entry>)
    ensures Infos(a + b) == Infos(a) + Infos(b)
  {
  }

  lemma InfosSnoc(s: seq<Entry>, e: Entry)
    ensures Infos(s + [e]) == Infos(s) + {e.info}
  {
    InfosConcat(s, [e]);
    assert Infos([e]) == {e.info};
  }

  lemma InfosPrefix(s: seq<Entry>, i: nat)
    requires i < |s|
    ensures Infos(s[..i + 1]) == Infos(s[..i]) + {s[i].info}
  {
    assert s[..i + 1] == s[..i] + [s[i]];
    InfosSnoc(s[..i], s[i]);
  }

  lemma InfosEmpty()
    ensures Infos([]) == {}
  {
  }

  lemma InfosWitness(s: seq<Entry>, p: PartInfo) returns (i: nat)
    requires p in Infos(s)
    ensures i < |s| && s[i].info == p
  {
    var e :| e in s && e.info == p;
    i :| i < |s| && s[i] == e;
  }

  lemma {:induction false} RemoveEntryCorrect(s: seq<Entry>, p: PartInfo)
    requires SortedDisjoint(s)
    ensures SortedDisjoint(RemoveEntry(s, p)) && Infos(RemoveEntry(s, p)) == Infos(s) - {p}
    ensures forall e :: e in RemoveEntry(s, p) ==> e in s
  {
    hide Less, PartInfo.IsDisjoint, PartInfo.WellFormed, Infos, SortedDisjoint;
    if s == [] {
      InfosEmpty();
    } else {
      var rest := s[1..];
      assert s == [s[0]] + rest;
      InfosConcat([s[0]], rest);
      InfosSnoc([], s[0]);
      InfosEmpty();
      assert [] + [s[0]] == [s[0]];
      TailSorted(s);
      RemoveEntryCorrect(rest, p);
      if s[0].info != p {
        var shorter := RemoveEntry(rest, p);
        InfosConcat([s[0]], shorter);
        SubSorted(s[0], rest, shorter);
      }
    }
  }

  lemma TailSorted(s: seq<Entry>)
    requires s != [] && SortedDisjoint(s)
    ensures SortedDisjoint(s[1..]) && s[0].info.WellFormed() && s[0].info !in Infos(s[1..])
    ensures forall e :: e in s[1..] ==> Less(s[0].info, e.info) && s[0].info.IsDisjoint(e.info)
  {
    hide Less, PartInfo.IsDisjoint, PartInfo.WellFormed;
    var rest := s[1..];
    assert forall j :: 0 <= j < |rest| ==> rest[j] == s[j + 1];
    forall e | e in rest ensures e.info != s[0].info {
      LessTotal(s[0].info, e.info);
    }
  }

  lemma SubSorted(e: Entry, rest: seq<Entry>, sub: seq<Entry>)
    requires e.info.WellFormed() && SortedDisjoint(sub) && forall x :: x in sub ==> x in rest
    requires forall x :: x in rest ==> Less(e.info, x.info) && e.info.IsDisjoint(x.info)
    ensures SortedDisjoint([e] + sub)
  {
    hide Less, PartInfo.IsDisjoint, PartInfo.WellFormed;
    forall i | 0 <= i < |sub| ensures Less(e.info, sub[i].info) && e.info.IsDisjoint(sub[i].info) {
      assert sub[i] in rest;
    }
  }

  lemma {:induction false} FilterInfos(s: seq<Entry>, p: PartInfo)
    ensures Infos(ContainedIn(s, p)) == Inside(Infos(s), p)
    ensures Infos(Without(s, p)) == Outside(Infos(s), p)
  {
    hide PartInfo.Contains;
    if s != [] {
      var rest := s[1..];
      assert s == [s[0]] + rest;
      InfosConcat([s[0]], rest);
      FilterInfos(rest, p);
      assert Infos([s[0]]) == {s[0].info};
      InfosConcat(if p.Contains(s[0].info) then [s[0]] else [], ContainedIn(rest, p));
      InfosConcat(if p.Contains(s[0].info) then [] else [s[0]], Without(rest, p));
    }
  }

  // ---- families of parts: what is left after adding them in some order ----

  ghost predicate Laminar(f: set<PartInfo>) {
    && (forall a :: a in f ==> a.WellFormed())
    && forall a, b :: a in f && b in f ==> a.IsDisjoint(b) || a.Contains(b) || b.Contains(a)
  }

  /** The parts that no other part of the family contains. */
  ghost function Maximal(f: set<PartInfo>): set<PartInfo> {
    set a | a in f && forall b :: b in f && b.Contains(a) ==> b == a
  }

  /** Everything in the family is contained in some active part. */
  ghost predicate Dominated(f: set<PartInfo>, active: set<PartInfo>) {
    forall a :: a in f ==> exists m :: m in active && m.Contains(a)
  }

  lemma AddCovered(f: set<PartInfo>, active: set<PartInfo>, p: PartInfo, c: PartInfo)
    requires active == Maximal(f) && Dominated(f, active) && c in active && c.Contains(p)
    ensures active == Maximal(f + {p}) && Dominated(f + {p}, active)
  {
    hide PartInfo.Contains;
    forall q | q in active ensures q in Maximal(f + {p}) {
      if p.Contains(q) {
        ContainsIsPartialOrder(c, p, q);
        ContainsIsPartialOrder(c, p, c);
      }
    }
    forall q | q in Maximal(f + {p}) ensures q in active {
    }
  }

  lemma AddUncovered(f: set<PartInfo>, active: set<PartInfo>, p: PartInfo)
    requires active == Maximal(f) && Dominated(f, active)
    requires forall c :: c in active ==> !c.Contains(p)
    ensures Outside(active, p) + {p} == Maximal(f + {p})
    ensures Dominated(f + {p}, Outside(active, p) + {p})
  {
    hide PartInfo.Contains;
    var next := Outside(active, p) + {p};
    ContainsIsPartialOrder(p, p, p);
    forall q | q in f ensures !q.Contains(p) {
      var m :| m in active && m.Contains(q);
      ContainsIsPartialOrder(m, q, p);
    }
    forall a | a in f ensures exists m :: m in next && m.Contains(a) {
      var m :| m in active && m.Contains(a);
      ContainsIsPartialOrder(p, m, a);
      if p.Contains(m) {
        assert p in next && p.Contains(a);
      } else {
        assert m in next;
      }
    }
    assert p in next;
  }

  lemma LaminarNeverIntersects(s: seq<Entry>, f: set<PartInfo>, p: PartInfo)
    requires Laminar(f + {p}) && Infos(s) <= f && !Covered(s, p)
    ensures !Intersected(s, p)
  {
    forall i | 0 <= i < |s| ensures p.IsDisjoint(s[i].info) || p.Contains(s[i].info) {
    }
  }

  /** Adding a whole family: when any two of its parts are disjoint or nested, no order of them fails, and what is left
      are its maximal parts, whatever the order. `ok` is false where the source's constructor throws. */
  method AddAll(family: seq<Entry>) returns (result: ActiveDataPartSet, ok: bool)
    requires forall i :: 0 <= i < |family| ==> family[i].info.WellFormed()
    ensures fresh(result) && result.Valid()
    ensures Laminar(Infos(family)) ==> ok && Infos(result.parts) == Maximal(Infos(family))
  {
    result := new ActiveDataPartSet();
    ok := true;
    ghost var f := Infos(family);
    hide Laminar, Maximal, Dominated, Less, LowerBound, Covered, Intersected, Infos, SortedDisjoint, PartInfo.WellFormed;
    NoFamily();
    for i := 0 to |family|
      invariant fresh(result) && result.Valid()
      invariant Laminar(f) ==> Infos(result.parts) == Maximal(Infos(family[..i]))
      invariant Laminar(f) ==> Dominated(Infos(family[..i]), Infos(result.parts))
    {
      var e := family[i];
      ghost var before := result.parts;
      var added, _ := result.Add(e.info, e.name);
      if Laminar(f) {
        AddStep(family, i, before, result.parts, added);
      }
      if added.None? {
        return result, false;
      }
    }
    assert family[..|family|] == family;
  }

  lemma NoFamily()
    ensures Infos([]) == Maximal(Infos([])) && Dominated(Infos([]), Infos([]))
  {
  }

  lemma AddStep(family: seq<Entry>, i: nat, before: seq<Entry>, after: seq<Entry>, added: Option<bool>)
    requires i < |family| && Laminar(Infos(family)) && SortedDisjoint(before)
    requires Infos(before) == Maximal(Infos(family[..i])) && Dominated(Infos(family[..i]), Infos(before))
    requires var p := family[i].info;
             && (added.None? <==> !Covered(before, p) && Intersected(before, p))
             && (added.Some? ==> (added.value <==> !Covered(before, p)))
             && (added.Some? && !added.value ==> after == before)
             && (added.Some? && added.value ==> after == Inserted(Without(before, p), family[i]))
    ensures added.Some?
    ensures Infos(after) == Maximal(Infos(family[..i + 1])) && Dominated(Infos(family[..i + 1]), Infos(after))
  {
    hide *;
    InfosPrefix(family, i);
    if Covered(before, family[i].info) {
      var k := CoveredWitness(before, family[i].info);
      AddCovered(Infos(family[..i]), Infos(before), family[i].info, before[k].info);
    } else {
      FamilyPrefix(family, i);
      SubsetOfFamily(Infos(family[..i]), Infos(before));
      LaminarNeverIntersects(before, Infos(family[..i]), family[i].info);
      NotCovered(before, family[i].info);
      AddUncovered(Infos(family[..i]), Infos(before), family[i].info);
      InsertedInfos(before, family[i]);
    }
  }

  lemma CoveredWitness(s: seq<Entry>, p: PartInfo) returns (i: nat)
    requires Covered(s, p)
    ensures i < |s| && s[i].info.Contains(p) && s[i].info in Infos(s)
  {
    i :| i < |s| && s[i].info.Contains(p);
  }

  lemma FamilyPrefix(family: seq<Entry>, i: nat)
    requires i < |family| && Laminar(Infos(family))
    ensures Laminar(Infos(family[..i]) + {family[i].info})
  {
    assert Infos(family[..i]) <= Infos(family);
  }

  lemma SubsetOfFamily(f: set<PartInfo>, active: set<PartInfo>)
    requires active == Maximal(f)
    ensures active <= f
  {
  }

  lemma NotCovered(s: seq<Entry>, p: PartInfo)
    requires !Covered(s, p)
    ensures forall c :: c in Infos(s) ==> !c.Contains(p)
  {
  }

  lemma InsertedInfos(s: seq<Entry>, e: Entry)
    ensures Infos(Inserted(Without(s, e.info), e)) == Outside(Infos(s), e.info) + {e.info}
  {
    hide PartInfo.Contains, Less, Infos, Without, LowerBound;
    var w := Without(s, e.info);
    var k := LowerBound(w, e.info);
    FilterInfos(s, e.info);
    assert w == w[..k] + w[k..];
    InfosConcat(w[..k], w[k..]);
    InfosConcat(w[..k] + [e], w[k..]);
    InfosSnoc(w[..k], e);
  }
}
