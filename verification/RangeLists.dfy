/** Lists of ranges as sets of values, and lists that are in order and without overlaps. */
module RangeLists {
  import opened Ranges

  type RangeList = seq<Range>

  ghost predicate Covers(ranges: RangeList, x: real) {
    exists k :: 0 <= k < |ranges| && ranges[k].Has(x)
  }

  lemma CoversConcat(a: RangeList, b: RangeList, x: real)
    ensures Covers(a + b, x) <==> Covers(a, x) || Covers(b, x)
  {
    var all := a + b;
    assert forall k :: 0 <= k < |a| ==> all[k] == a[k];
    assert forall k :: 0 <= k < |b| ==> all[|a| + k] == b[k];
  }

  lemma CoversSnoc(a: RangeList, r: Range, x: real)
    ensures Covers(a + [r], x) <==> Covers(a, x) || r.Has(x)
  {
    CoversConcat(a, [r], x);
    assert Covers([r], x) <==> r.Has(x) by {
      assert [r][0] == r;
    }
  }

  /** Whether `a` ends before `b` begins: no value is in both. */
  predicate Before(a: Range, b: Range) {
    Less(a.right, b.left) || (a.right == b.left && !(a.rightIncluded && b.leftIncluded))
  }

  /** Holds some value. */
  predicate Proper(r: Range) {
    !Blank(r) && !r.left.PosInf? && !r.right.NegInf?
  }

  /** In order, apart from each other, and none of them blank. */
  predicate PlainList(ranges: RangeList) {
    && (forall i :: 0 <= i < |ranges| ==> Proper(ranges[i]))
    && (forall i, j :: 0 <= i < j < |ranges| ==> Before(ranges[i], ranges[j]))
  }

  lemma ProperHasValue(r: Range) returns (x: real)
    requires Proper(r)
    ensures r.Has(x)
  {
    match (r.left, r.right)
    case (Fin(a), Fin(b)) => x := if a == b then a else (a + b) / 2.0;
    case (Fin(a), PosInf) => x := a + 1.0;
    case (NegInf, Fin(b)) => x := b - 1.0;
    case _ => x := 0.0;
  }

  /** A value is in one range of the list at most, and an empty list is the only one without a value. */
  lemma PlainOnce(ranges: RangeList)
    requires PlainList(ranges)
    ensures forall x, i, j :: 0 <= i < |ranges| && 0 <= j < |ranges| && ranges[i].Has(x) && ranges[j].Has(x) ==> i == j
    ensures ranges == [] <==> forall x :: !Covers(ranges, x)
  {
    forall x, i, j | 0 <= i < j < |ranges| ensures !(ranges[i].Has(x) && ranges[j].Has(x)) {
      assert Before(ranges[i], ranges[j]);
    }
    if ranges != [] {
      var x := ProperHasValue(ranges[0]);
      assert Covers(ranges, x);
    }
  }

  lemma PlainOne(r: Range)
    requires Proper(r)
    ensures PlainList([r]) && PlainList([])
  {
  }

  lemma PlainSnoc(ranges: RangeList, r: Range)
    requires PlainList(ranges) && Proper(r) && forall i :: 0 <= i < |ranges| ==> Before(ranges[i], r)
    ensures PlainList(ranges + [r])
  {
    hide Before, Proper;
  }

  lemma PlainConcat(a: RangeList, b: RangeList)
    requires PlainList(a) && PlainList(b)
    requires forall i, j :: 0 <= i < |a| && 0 <= j < |b| ==> Before(a[i], b[j])
    ensures PlainList(a + b)
  {
    hide Before, Proper;
  }

  /** No end of `q` is outside `r`. */
  predicate Within(q: Range, r: Range) {
    && (Less(r.left, q.left) || (r.left == q.left && (q.leftIncluded ==> r.leftIncluded)))
    && (Less(q.right, r.right) || (q.right == r.right && (q.rightIncluded ==> r.rightIncluded)))
  }

  lemma WithinBefore(q: Range, r: Range, p: Range, s: Range)
    requires Within(q, r) && Within(p, s) && Before(r, s)
    ensures Before(q, p)
  {
  }

  lemma IntersectWithin(a: Range, b: Range)
    ensures Within(IntersectRange(a, b), a) && Within(IntersectRange(a, b), b) && Within(a, a)
    ensures Proper(a) && Proper(b) && !Blank(IntersectRange(a, b)) ==> Proper(IntersectRange(a, b))
  {
  }

  predicate Blank(r: Range) {
    Less(r.right, r.left) || (r.left == r.right && !(r.leftIncluded && r.rightIncluded))
  }

  function IntersectRange(a: Range, b: Range): (r: Range)
    ensures forall x :: r.Has(x) <==> a.Has(x) && b.Has(x)
  {
    var (left, leftIncluded) :=
      if Less(a.left, b.left) then (b.left, b.leftIncluded)
      else if Less(b.left, a.left) then (a.left, a.leftIncluded)
      else (a.left, a.leftIncluded && b.leftIncluded);
    var (right, rightIncluded) :=
      if Less(a.right, b.right) then (a.right, a.rightIncluded)
      else if Less(b.right, a.right) then (b.right, b.rightIncluded)
      else (a.right, a.rightIncluded && b.rightIncluded);
    Range(left, leftIncluded, right, rightIncluded)
  }

  /** The parts below and above a range. */
  function InvertRange(r: Range): (result: RangeList)
    ensures forall x :: Covers(result, x) <==> !r.Has(x)
    ensures Proper(r) ==> PlainList(result)
  {
    var below := if r.left.NegInf? then [] else [RightBounded(r.left, !r.leftIncluded)];
    var above := if r.right.PosInf? then [] else [LeftBounded(r.right, !r.rightIncluded)];
    assert forall x :: Covers(below + above, x) <==> !r.Has(x) by {
      forall x ensures Covers(below + above, x) <==> !r.Has(x) {
        CoversConcat(below, above, x);
        assert r.left.NegInf? || below[0].Has(x) <==> Covers(below, x) || r.left.NegInf?;
        assert r.right.PosInf? || above[0].Has(x) <==> Covers(above, x) || r.right.PosInf?;
      }
    }
    below + above
  }

  method IntersectWith(a: RangeList, b: RangeList) returns (result: RangeList)
    ensures forall x :: Covers(result, x) <==> Covers(a, x) && Covers(b, x)
    ensures PlainList(a) && PlainList(b) ==> PlainList(result)
  {
    hide Before, Proper, Within, Blank;
    result := [];
    for i := 0 to |a|
      invariant forall x :: Covers(result, x) <==> Covers(a[..i], x) && Covers(b, x)
      invariant PlainList(a) && PlainList(b) ==> PlainList(result) && AllBefore(result, a[i..])
    {
      var row := IntersectRow(a[i], b);
      if PlainList(a) && PlainList(b) {
        RowBefore(result, row, a, i);
      }
      forall x
        ensures Covers(result + row, x) <==> Covers(a[..i + 1], x) && Covers(b, x)
      {
        CoversConcat(result, row, x);
        assert a[..i + 1] == a[..i] + [a[i]];
        CoversSnoc(a[..i], a[i], x);
      }
      result := result + row;
    }
    assert a[..|a|] == a;
  }

  ghost predicate AllBefore(a: RangeList, b: RangeList) {
    forall i, j :: 0 <= i < |a| && 0 <= j < |b| ==> Before(a[i], b[j])
  }

  ghost predicate AllWithin(a: RangeList, r: Range) {
    forall i :: 0 <= i < |a| ==> Within(a[i], r)
  }

  lemma RowBefore(done: RangeList, row: RangeList, a: RangeList, i: nat)
    requires i < |a| && PlainList(a) && PlainList(done) && AllBefore(done, a[i..]) && PlainList(row) && AllWithin(row, a[i])
    ensures PlainList(done + row) && AllBefore(done + row, a[i + 1..])
  {
    hide Before, Proper, Within;
    forall k, m | 0 <= k < |done| && 0 <= m < |row| ensures Before(done[k], row[m]) {
      assert a[i..][0] == a[i];
      WithinItself(done[k]);
      WithinBefore(done[k], done[k], row[m], a[i]);
    }
    PlainConcat(done, row);
    var all, rest := done + row, a[i + 1..];
    forall k, m | 0 <= k < |all| && 0 <= m < |rest| ensures Before(all[k], rest[m]) {
      assert rest[m] == a[i..][m + 1] == a[i + 1 + m];
      if k >= |done| {
        WithinItself(a[i + 1 + m]);
        WithinBefore(row[k - |done|], a[i], a[i + 1 + m], a[i + 1 + m]);
      }
    }
  }

  lemma WithinItself(r: Range)
    ensures Within(r, r)
  {
  }

  lemma CommonBefore(done: RangeList, r: Range, b: RangeList, j: nat)
    requires j < |b| && Proper(r) && PlainList(b) && PlainList(done) && AllBefore(done, b[j..]) && AllWithin(done, r)
    requires !Blank(IntersectRange(r, b[j]))
    ensures
      var next := done + [IntersectRange(r, b[j])];
      PlainList(next) && AllBefore(next, b[j + 1..]) && AllWithin(next, r)
  {
    hide Before, Proper, Within, Blank;
    var common := IntersectRange(r, b[j]);
    IntersectWithin(r, b[j]);
    assert b[j..][0] == b[j];
    assert PlainList([common]) by {
      assert Proper(common);
    }
    forall k | 0 <= k < |done| ensures Before(done[k], common) {
      WithinItself(done[k]);
      WithinBefore(done[k], done[k], common, b[j]);
    }
    PlainSnoc(done, common);
    var all, rest := done + [common], b[j + 1..];
    forall k, m | 0 <= k < |all| && 0 <= m < |rest| ensures Before(all[k], rest[m]) {
      assert rest[m] == b[j..][m + 1] == b[j + 1 + m];
      if k == |done| {
        WithinItself(b[j + 1 + m]);
        WithinBefore(common, b[j], b[j + 1 + m], b[j + 1 + m]);
      }
    }
  }

  method IntersectRow(r: Range, b: RangeList) returns (result: RangeList)
    ensures forall x :: Covers(result, x) <==> r.Has(x) && Covers(b, x)
    ensures Proper(r) && PlainList(b) ==> PlainList(result) && AllWithin(result, r)
  {
    hide Before, Proper, Within;
    result := [];
    for j := 0 to |b|
      invariant forall x :: Covers(result, x) <==> r.Has(x) && Covers(b[..j], x)
      invariant Proper(r) && PlainList(b) ==> PlainList(result) && AllWithin(result, r) && AllBefore(result, b[j..])
    {
      var common := IntersectRange(r, b[j]);
      if Proper(r) && PlainList(b) && !Blank(common) {
        CommonBefore(result, r, b, j);
      }
      forall x
        ensures Covers(result + [common], x) <==> r.Has(x) && Covers(b[..j + 1], x)
        ensures Blank(common) ==> !common.Has(x)
      {
        CoversSnoc(result, common, x);
        assert b[..j + 1] == b[..j] + [b[j]];
        CoversSnoc(b[..j], b[j], x);
      }
      if !Blank(common) {
        result := result + [common];
      } else {
        forall x ensures Covers(result, x) <==> Covers(result + [common], x) {
          CoversSnoc(result, common, x);
        }
      }
    }
    assert b[..|b|] == b;
  }

  /** Every range inverted on its own; a list that holds nothing inverts to the universe. */
  function Invert(ranges: RangeList): seq<RangeList> {
    if ranges == [] then [[UNIVERSE]]
    else seq(|ranges|, i requires 0 <= i < |ranges| => InvertRange(ranges[i]))
  }

  lemma UniverseIsPlain()
    ensures PlainList([UNIVERSE]) && PlainList([])
  {
  }

  /** Whether a gap is between the end of `a` and the beginning of `b`. */
  predicate Apart(a: Range, b: Range) {
    Less(a.right, b.left) || (a.right == b.left && !a.rightIncluded && !b.leftIncluded)
  }

  predicate StartsBefore(a: Range, b: Range) {
    Less(a.left, b.left) || (a.left == b.left && (a.leftIncluded || !b.leftIncluded))
  }

  /** From the beginning of the first to the end of the later one. */
  function Hull(a: Range, b: Range): Range {
    if Less(a.right, b.right) then Range(a.left, a.leftIncluded, b.right, b.rightIncluded)
    else if Less(b.right, a.right) then a
    else Range(a.left, a.leftIncluded, a.right, a.rightIncluded || b.rightIncluded)
  }

  lemma HullHas(a: Range, b: Range, x: real)
    requires StartsBefore(a, b) && !Apart(a, b)
    ensures Hull(a, b).Has(x) <==> a.Has(x) || b.Has(x)
  {
  }

  /** Join the range to the last one where they meet, or put it behind. */
  function Appended(ranges: RangeList, r: Range): RangeList {
    var n := |ranges|;
    if n > 0 && StartsBefore(ranges[n - 1], r) && !Apart(ranges[n - 1], r) then ranges[..n - 1] + [Hull(ranges[n - 1], r)]
    else ranges + [r]
  }

  lemma AppendedCovers(ranges: RangeList, r: Range, x: real)
    ensures Covers(Appended(ranges, r), x) <==> Covers(ranges, x) || r.Has(x)
  {
    hide Covers, StartsBefore, Apart, Hull, Range.Has;
    CoversSnoc(ranges, r, x);
    var n := |ranges|;
    if n > 0 && StartsBefore(ranges[n - 1], r) && !Apart(ranges[n - 1], r) {
      HullHas(ranges[n - 1], r, x);
      CoversSnoc(ranges[..n - 1], Hull(ranges[n - 1], r), x);
      CoversSnoc(ranges[..n - 1], ranges[n - 1], x);
      assert ranges[..n - 1] + [ranges[n - 1]] == ranges;
    }
  }

  ghost predicate LastStartsBefore(ranges: RangeList, r: Range) {
    ranges != [] ==> StartsBefore(ranges[|ranges| - 1], r)
  }

  lemma HullProper(a: Range, b: Range)
    requires Proper(a) && Proper(b) && StartsBefore(a, b)
    ensures !Apart(a, b) ==> Proper(Hull(a, b))
    ensures Apart(a, b) ==> Before(a, b)
    ensures Hull(a, b).left == a.left && Hull(a, b).leftIncluded == a.leftIncluded
  {
  }

  lemma BeforeStart(q: Range, a: Range, b: Range)
    requires Before(q, a) && Proper(a) && StartsBefore(a, b)
    ensures Before(q, b)
  {
  }

  lemma SameStart(q: Range, a: Range, b: Range)
    requires Before(q, a) && b.left == a.left && b.leftIncluded == a.leftIncluded
    ensures Before(q, b)
  {
  }

  lemma AppendedPlain(ranges: RangeList, r: Range)
    requires PlainList(ranges) && Proper(r) && LastStartsBefore(ranges, r)
    ensures PlainList(Appended(ranges, r))
    ensures forall next :: StartsBefore(r, next) ==> LastStartsBefore(Appended(ranges, r), next)
  {
    hide Before, Proper, Apart, Hull;
    var n := |ranges|;
    forall next | StartsBefore(r, next) ensures LastStartsBefore(Appended(ranges, r), next) {
      if n > 0 {
        HullProper(ranges[n - 1], r);
      }
    }
    hide StartsBefore;
    if n > 0 {
      var last := ranges[n - 1];
      HullProper(last, r);
      if Apart(last, r) {
        forall k | 0 <= k < n ensures Before(ranges[k], r) {
          if k < n - 1 {
            BeforeStart(ranges[k], last, r);
          }
        }
        PlainSnoc(ranges, r);
      } else {
        var hull := Hull(last, r);
        forall k | 0 <= k < n - 1 ensures Before(ranges[k], hull) {
          SameStart(ranges[k], last, hull);
        }
        PlainSnoc(ranges[..n - 1], hull);
      }
    } else {
      PlainOne(r);
      assert ranges + [r] == [r];
    }
  }

  lemma NextStarts(a: RangeList, i: nat)
    requires PlainList(a) && i + 1 < |a|
    ensures StartsBefore(a[i], a[i + 1])
  {
    assert Before(a[i], a[i + 1]) && Proper(a[i]);
  }

  lemma StartsTotal(a: Range, b: Range)
    ensures StartsBefore(a, b) || StartsBefore(b, a)
    ensures StartsBefore(a, a)
  {
  }

  /** OR: both lists merged in order of their beginnings. */
  method UnionWith(a: RangeList, b: RangeList) returns (result: RangeList)
    ensures forall x :: Covers(result, x) <==> Covers(a, x) || Covers(b, x)
    ensures PlainList(a) && PlainList(b) ==> PlainList(result)
  {
    hide Before, Proper, StartsBefore, Appended, LastStartsBefore, Covers, PlainList;
    result := [];
    var i, j := 0, 0;
    UnionStart(a, b);
    while i < |a| || j < |b|
      invariant i <= |a| && j <= |b|
      invariant forall x :: Covers(result, x) <==> Covers(a[..i], x) || Covers(b[..j], x)
      invariant PlainList(a) && PlainList(b) ==>
          && PlainList(result) && (i < |a| ==> LastStartsBefore(result, a[i])) && (j < |b| ==> LastStartsBefore(result, b[j]))
      decreases |a| - i + |b| - j
    {
      if j == |b| || (i < |a| && StartsBefore(a[i], b[j])) {
        UnionStep(result, a, i, b, j);
        result, i := Appended(result, a[i]), i + 1;
      } else {
        if i < |a| {
          StartsTotal(a[i], b[j]);
        }
        UnionStep(result, b, j, a, i);
        result, j := Appended(result, b[j]), j + 1;
      }
    }
    assert a[..|a|] == a && b[..|b|] == b;
  }

  lemma UnionStart(a: RangeList, b: RangeList)
    ensures forall x :: !Covers([], x)
    ensures a[..0] == [] && b[..0] == [] && PlainList([]) && forall r :: LastStartsBefore([], r)
  {
  }

  lemma UnionStep(done: RangeList, a: RangeList, i: nat, b: RangeList, j: nat)
    requires i < |a| && j <= |b| && (j < |b| ==> StartsBefore(a[i], b[j]))
    ensures forall x :: Covers(Appended(done, a[i]), x) <==> Covers(done, x) || a[i].Has(x)
    ensures forall x :: Covers(a[..i + 1], x) <==> Covers(a[..i], x) || a[i].Has(x)
    ensures PlainList(a) && PlainList(done) && LastStartsBefore(done, a[i]) ==>
              && PlainList(Appended(done, a[i]))
              && (i + 1 < |a| ==> LastStartsBefore(Appended(done, a[i]), a[i + 1]))
              && (j < |b| ==> LastStartsBefore(Appended(done, a[i]), b[j]))
  {
    hide Before, Proper, StartsBefore, Appended, LastStartsBefore, Covers, Range.Has;
    forall x
      ensures Covers(Appended(done, a[i]), x) <==> Covers(done, x) || a[i].Has(x)
      ensures Covers(a[..i + 1], x) <==> Covers(a[..i], x) || a[i].Has(x)
    {
      AppendedCovers(done, a[i], x);
      assert a[..i + 1] == a[..i] + [a[i]];
      CoversSnoc(a[..i], a[i], x);
    }
    if PlainList(a) && PlainList(done) && LastStartsBefore(done, a[i]) {
      AppendedPlain(done, a[i]);
      if i + 1 < |a| {
        NextStarts(a, i);
      }
    }
  }

  /** NOT: the intersection of the inverted ranges. */
  method InvertAndIntersect(ranges: RangeList) returns (result: RangeList)
    ensures forall x :: Covers(result, x) <==> !Covers(ranges, x)
    ensures PlainList(ranges) ==> PlainList(result)
  {
    hide Before, Proper;
    var reverted := Invert(ranges);
    result := reverted[0];
    if ranges == [] {
      assert result == [UNIVERSE] && result[0] == UNIVERSE;
      UniverseIsPlain();
      return;
    }
    forall x ensures Covers(result, x) <==> !Covers(ranges[..1], x) {
      CoversSnoc([], ranges[0], x);
      assert ranges[..1] == [] + [ranges[0]];
    }
    for i := 1 to |reverted|
      invariant forall x :: Covers(result, x) <==> !Covers(ranges[..i], x)
      invariant PlainList(ranges) ==> PlainList(result)
    {
      forall x ensures Covers(ranges[..i + 1], x) <==> Covers(ranges[..i], x) || ranges[i].Has(x) {
        assert ranges[..i + 1] == ranges[..i] + [ranges[i]];
        CoversSnoc(ranges[..i], ranges[i], x);
      }
      result := IntersectWith(result, reverted[i]);
    }
    assert ranges[..|ranges|] == ranges;
  }

  ghost predicate AmongRows(rows: seq<seq<real>>, x: real)
    requires forall k :: 0 <= k < |rows| ==> |rows[k]| == 1
  {
    exists k :: 0 <= k < |rows| && rows[k][0] == x
  }

  method PointRanges(rows: seq<seq<real>>) returns (ranges: RangeList)
    requires forall k :: 0 <= k < |rows| ==> |rows[k]| == 1
    ensures forall x :: Covers(ranges, x) <==> AmongRows(rows, x)
    ensures |ranges| == |rows| && forall k :: 0 <= k < |rows| ==> ranges[k] == Point(Fin(rows[k][0]))
  {
    ranges := [];
    for i := 0 to |rows|
      invariant |ranges| == i && forall k :: 0 <= k < i ==> ranges[k] == Point(Fin(rows[k][0]))
      invariant forall x :: Covers(ranges, x) <==> AmongRows(rows[..i], x)
    {
      forall x ensures Covers(ranges + [Point(Fin(rows[i][0]))], x) <==> AmongRows(rows[..i + 1], x) {
        CoversSnoc(ranges, Point(Fin(rows[i][0])), x);
        assert rows[..i + 1] == rows[..i] + [rows[i]];
        AmongRowsSnoc(rows[..i], rows[i], x);
      }
      ranges := ranges + [Point(Fin(rows[i][0]))];
    }
    assert rows[..|rows|] == rows;
  }

  lemma AmongRowsSnoc(rows: seq<seq<real>>, row: seq<real>, x: real)
    requires (forall k :: 0 <= k < |rows| ==> |rows[k]| == 1) && |row| == 1
    ensures AmongRows(rows + [row], x) <==> AmongRows(rows, x) || row[0] == x
  {
    var all := rows + [row];
    assert all[|rows|] == row;
    assert forall k :: 0 <= k < |rows| ==> all[k] == rows[k];
  }

  /** The gaps that NOT IN leaves between the ordered values of a non-empty set. */
  method GapRanges(rows: seq<seq<real>>) returns (ranges: RangeList)
    requires rows != []
    requires forall k :: 0 <= k < |rows| ==> |rows[k]| == 1
    requires forall j, k :: 0 <= j < k < |rows| ==> rows[j][0] < rows[k][0]
    ensures forall x :: Covers(ranges, x) <==> !AmongRows(rows, x)
    ensures PlainList(ranges)
  {
    ranges := [RightBounded(Fin(rows[0][0]), false)];
    var pre := rows[0][0];
    forall x ensures Covers(ranges, x) <==> x < pre && !AmongRows(rows[..1], x) {
      CoversSnoc([], RightBounded(Fin(pre), false), x);
      assert ranges == [] + [RightBounded(Fin(pre), false)];
      assert AmongRows(rows[..1], x) <==> rows[0][0] == x by {
        assert rows[..1] == [] + [rows[0]];
        AmongRowsSnoc([], rows[0], x);
      }
    }
    for i := 1 to |rows|
      invariant pre == rows[i - 1][0]
      invariant PlainList(ranges) && forall k :: 0 <= k < |ranges| ==> ranges[k].right.Fin? && ranges[k].right.value <= pre && !ranges[k].rightIncluded
      invariant forall x :: Covers(ranges, x) <==> x < pre && !AmongRows(rows[..i], x)
    {
      var cur := rows[i][0];
      var gap := Range(Fin(pre), false, Fin(cur), false);
      assert !Blank(gap);
      forall x ensures Covers(ranges + [gap], x) <==> x < cur && !AmongRows(rows[..i + 1], x) {
        GapNext(rows, i, ranges, gap, x);
      }
      if !Blank(gap) {
        ranges := ranges + [gap];
      }
      pre := cur;
    }
    assert rows[..|rows|] == rows;
    forall x ensures Covers(ranges + [LeftBounded(Fin(pre), false)], x) <==> !AmongRows(rows, x) {
      CoversSnoc(ranges, LeftBounded(Fin(pre), false), x);
      assert AmongRows(rows, pre);
    }
    ranges := ranges + [LeftBounded(Fin(pre), false)];
  }

  lemma GapNext(rows: seq<seq<real>>, i: nat, ranges: RangeList, gap: Range, x: real)
    requires 1 <= i < |rows| && forall k :: 0 <= k < |rows| ==> |rows[k]| == 1
    requires forall j, k :: 0 <= j < k < |rows| ==> rows[j][0] < rows[k][0]
    requires gap == Range(Fin(rows[i - 1][0]), false, Fin(rows[i][0]), false)
    requires Covers(ranges, x) <==> x < rows[i - 1][0] && !AmongRows(rows[..i], x)
    ensures Covers(ranges + [gap], x) <==> x < rows[i][0] && !AmongRows(rows[..i + 1], x)
  {
    CoversSnoc(ranges, gap, x);
    assert rows[..i + 1] == rows[..i] + [rows[i]];
    AmongRowsSnoc(rows[..i], rows[i], x);
    assert rows[..i][i - 1] == rows[i - 1];
  }
}
