/** Splitting a condition into its top-level conjuncts, and those by key column
    (topLevelConjunction, extractSingleColumnConditions). */
module Conjunction {
  import opened Options
  import opened Ranges
  import opened Rpn

  /** Positions `start` to `end` of a program. */
  datatype Slice = Slice(start: nat, end: nat)

  datatype ValueInfo = ValueInfo(conjuncts: seq<Slice>, start: nat)

  predicate IsTerm(rpn: Program, s: Slice) {
    s.start < s.end <= |rpn| && WellFormed(rpn[s.start..s.end])
  }

  lemma SliceValid(rpn: Program, s: Slice, n: nat)
    requires ValidProgram(rpn, n) && s.start <= s.end <= |rpn|
    ensures ValidProgram(rpn[s.start..s.end], n)
  {
  }

  ghost predicate SliceHolds(rpn: Program, s: Slice, x: Key)
    requires ValidProgram(rpn, |x|)
  {
    IsTerm(rpn, s) && (SliceValid(rpn, s, |x|); Holds(rpn[s.start..s.end], x))
  }

  ghost predicate AllHold(rpn: Program, slices: seq<Slice>, x: Key)
    requires ValidProgram(rpn, |x|)
  {
    forall k :: 0 <= k < |slices| ==> SliceHolds(rpn, slices[k], x)
  }

  predicate Disjoint(slices: seq<Slice>) {
    forall j, k :: 0 <= j < k < |slices| ==> slices[j].end <= slices[k].start || slices[k].end <= slices[j].start
  }

  /** A term inside `whole` that is not a conjunction itself. */
  predicate Conjunct(rpn: Program, whole: Slice, s: Slice) {
    IsTerm(rpn, s) && whole.start <= s.start && s.end <= whole.end && !rpn[s.end - 1].And?
  }

  /** Terms inside `whole` that overlap nowhere and are not conjunctions themselves. */
  predicate Conjuncts(rpn: Program, whole: Slice, slices: seq<Slice>) {
    && Disjoint(slices)
    && forall k :: 0 <= k < |slices| ==> Conjunct(rpn, whole, slices[k])
  }

  /** `slices` split the term `whole` into conjuncts. */
  ghost predicate Splits(rpn: Program, whole: Slice, slices: seq<Slice>, n: nat)
    requires ValidProgram(rpn, n)
  {
    && IsTerm(rpn, whole)
    && Conjuncts(rpn, whole, slices)
    && forall x: Key :: |x| == n ==> (SliceHolds(rpn, whole, x) <==> AllHold(rpn, slices, x))
  }

  function EndOf(stack: seq<ValueInfo>, j: nat, i: nat): nat
    requires j < |stack|
  {
    if j + 1 < |stack| then stack[j + 1].start else i
  }

  /** After `i` elements the stack entries are adjacent terms that cover exactly these elements. */
  ghost predicate Tracks(rpn: Program, stack: seq<ValueInfo>, i: nat, n: nat)
    requires ValidProgram(rpn, n)
  {
    && (if stack == [] then i == 0 else stack[0].start == 0)
    && forall j :: 0 <= j < |stack| ==> Splits(rpn, Slice(stack[j].start, EndOf(stack, j, i)), stack[j].conjuncts, n)
  }

  /** A term that is no conjunction is its own only conjunct. */
  lemma SelfSplits(rpn: Program, s: Slice, n: nat)
    requires ValidProgram(rpn, n) && IsTerm(rpn, s) && !rpn[s.end - 1].And?
    ensures Splits(rpn, s, [s], n)
  {
    forall x: Key | |x| == n
      ensures SliceHolds(rpn, s, x) <==> AllHold(rpn, [s], x)
    {
      assert [s][0] == s;
    }
  }

  lemma AtomSplits(rpn: Program, i: nat, n: nat)
    requires ValidProgram(rpn, n) && i < |rpn| && rpn[i].Arity() == 0
    ensures Splits(rpn, Slice(i, i + 1), [Slice(i, i + 1)], n)
  {
    var x: Key := seq(n, _ => 0.0);
    assert rpn[i..i + 1] == [rpn[i]];
    AtomTerm(rpn[i], x);
    SelfSplits(rpn, Slice(i, i + 1), n);
  }

  lemma {:induction false} AllHoldConcat(rpn: Program, a: seq<Slice>, b: seq<Slice>, x: Key)
    requires ValidProgram(rpn, |x|)
    ensures AllHold(rpn, a + b, x) <==> AllHold(rpn, a, x) && AllHold(rpn, b, x)
  {
    var all := a + b;
    assert forall k :: 0 <= k < |a| ==> all[k] == a[k];
    assert forall k :: 0 <= k < |b| ==> all[|a| + k] == b[k];
  }

  lemma AndMeaning(rpn: Program, left: Slice, right: Slice, x: Key)
    requires ValidProgram(rpn, |x|) && right.end < |rpn| && rpn[right.end].And? && left.end == right.start
    requires IsTerm(rpn, left) && IsTerm(rpn, right)
    ensures IsTerm(rpn, Slice(left.start, right.end + 1))
    ensures SliceHolds(rpn, Slice(left.start, right.end + 1), x) <==> SliceHolds(rpn, left, x) && SliceHolds(rpn, right, x)
  {
    var a, b := rpn[left.start..left.end], rpn[right.start..right.end];
    assert rpn[left.start..right.end + 1] == a + b + [rpn[right.end]];
    SliceValid(rpn, left, |x|);
    SliceValid(rpn, right, |x|);
    BinaryTerm(a, b, rpn[right.end], x);
  }

  lemma ConjunctsConcat(rpn: Program, left: Slice, right: Slice, l: seq<Slice>, r: seq<Slice>, whole: Slice)
    requires Conjuncts(rpn, left, l) && Conjuncts(rpn, right, r)
    requires left.end <= right.start || right.end <= left.start
    requires whole.start <= left.start && left.end <= whole.end && whole.start <= right.start && right.end <= whole.end
    ensures Conjuncts(rpn, whole, l + r)
  {
    var lr := l + r;
    assert forall k :: 0 <= k < |l| ==> lr[k] == l[k] && Conjunct(rpn, left, l[k]);
    assert forall k :: |l| <= k < |lr| ==> lr[k] == r[k - |l|] && Conjunct(rpn, right, r[k - |l|]);
    forall j, k | 0 <= j < k < |lr|
      ensures lr[j].end <= lr[k].start || lr[k].end <= lr[j].start
    {
      if j < |l| <= k {
        assert Conjunct(rpn, left, lr[j]) && Conjunct(rpn, right, lr[k]);
      }
    }
  }

  /** AND merges the conjuncts of both sides, in either order. */
  lemma AndSplits(rpn: Program, left: Slice, right: Slice, l: seq<Slice>, r: seq<Slice>, n: nat)
    requires ValidProgram(rpn, n) && right.end < |rpn| && rpn[right.end].And? && left.end == right.start
    requires Splits(rpn, left, l, n) && Splits(rpn, right, r, n)
    ensures Splits(rpn, Slice(left.start, right.end + 1), l + r, n)
    ensures Splits(rpn, Slice(left.start, right.end + 1), r + l, n)
  {
    var whole := Slice(left.start, right.end + 1);
    ConjunctsConcat(rpn, left, right, l, r, whole);
    ConjunctsConcat(rpn, right, left, r, l, whole);
    var y: Key := seq(n, _ => 0.0);
    AndMeaning(rpn, left, right, y);
    forall x: Key | |x| == n
      ensures SliceHolds(rpn, whole, x) <==> AllHold(rpn, l + r, x)
      ensures SliceHolds(rpn, whole, x) <==> AllHold(rpn, r + l, x)
    {
      AndMeaning(rpn, left, right, x);
      AllHoldConcat(rpn, l, r, x);
      AllHoldConcat(rpn, r, l, x);
    }
  }

  /** NOT glues its argument into one conjunct. */
  lemma NotSplits(rpn: Program, s: Slice, conjuncts: seq<Slice>, n: nat)
    requires ValidProgram(rpn, n) && Splits(rpn, s, conjuncts, n) && s.end < |rpn| && rpn[s.end].Not?
    ensures Splits(rpn, Slice(s.start, s.end + 1), [Slice(s.start, s.end + 1)], n)
  {
    var x: Key := seq(n, _ => 0.0);
    assert rpn[s.start..s.end + 1] == rpn[s.start..s.end] + [Not];
    SliceValid(rpn, s, n);
    NotTerm(rpn[s.start..s.end], x);
    SelfSplits(rpn, Slice(s.start, s.end + 1), n);
  }

  /** OR glues both its arguments into one conjunct. */
  lemma OrSplits(rpn: Program, left: Slice, right: Slice, l: seq<Slice>, r: seq<Slice>, n: nat)
    requires ValidProgram(rpn, n) && right.end < |rpn| && rpn[right.end].Or? && left.end == right.start
    requires Splits(rpn, left, l, n) && Splits(rpn, right, r, n)
    ensures Splits(rpn, Slice(left.start, right.end + 1), [Slice(left.start, right.end + 1)], n)
  {
    hide SliceHolds, WellFormed;
    OrIsTerm(rpn, left, right, n);
    SelfSplits(rpn, Slice(left.start, right.end + 1), n);
  }

  lemma OrIsTerm(rpn: Program, left: Slice, right: Slice, n: nat)
    requires ValidProgram(rpn, n) && right.end < |rpn| && rpn[right.end].Or? && left.end == right.start
    requires IsTerm(rpn, left) && IsTerm(rpn, right)
    ensures IsTerm(rpn, Slice(left.start, right.end + 1))
  {
    var x: Key := seq(n, _ => 0.0);
    var a, b := rpn[left.start..left.end], rpn[right.start..right.end];
    assert rpn[left.start..right.end + 1] == a + b + [rpn[right.end]];
    SliceValid(rpn, left, n);
    SliceValid(rpn, right, n);
    BinaryTerm(a, b, rpn[right.end], x);
  }

  /** What element `i` does to the stack: operators merge the topmost entries, AND alone keeps their conjuncts apart. */
  function TrackStep(stack: seq<ValueInfo>, e: Element, i: nat): (result: seq<ValueInfo>)
    requires e.Arity() <= |stack|
    ensures |result| == |stack| - e.Arity() + 1
  {
    var m := |stack|;
    match e
    case Not => stack[..m - 1] + [ValueInfo([Slice(stack[m - 1].start, i + 1)], stack[m - 1].start)]
    case And => stack[..m - 2] + [ValueInfo(Merged(stack[m - 2].conjuncts, stack[m - 1].conjuncts), stack[m - 2].start)]
    case Or => stack[..m - 2] + [ValueInfo([Slice(stack[m - 2].start, i + 1)], stack[m - 2].start)]
    case _ => stack + [ValueInfo([Slice(i, i + 1)], i)]
  }

  /** The shorter list is appended to the longer one. */
  function Merged(left: seq<Slice>, right: seq<Slice>): seq<Slice> {
    if |left| < |right| then right + left else left + right
  }

  function TrackRun(rpn: Program): (stack: seq<ValueInfo>)
    requires Runs(rpn, 0)
    ensures |stack| == Height(rpn, 0)
    decreases |rpn|
  {
    if rpn == [] then [] else TrackStep(TrackRun(rpn[..|rpn| - 1]), rpn[|rpn| - 1], |rpn| - 1)
  }

  function TopConjuncts(rpn: Program): seq<Slice>
    requires WellFormed(rpn)
  {
    TrackRun(rpn)[0].conjuncts
  }

  /** The entries above height `keep` are replaced by one that covers the same elements and element `i`. */
  lemma TracksNext(rpn: Program, stack: seq<ValueInfo>, i: nat, n: nat, keep: nat, info: ValueInfo)
    requires ValidProgram(rpn, n) && Tracks(rpn, stack, i, n)
    requires keep <= |stack| && info.start == if keep < |stack| then stack[keep].start else i
    requires Splits(rpn, Slice(info.start, i + 1), info.conjuncts, n)
    ensures Tracks(rpn, stack[..keep] + [info], i + 1, n)
  {
    hide Splits;
    var result := stack[..keep] + [info];
    forall j | 0 <= j < |result|
      ensures Splits(rpn, Slice(result[j].start, EndOf(result, j, i + 1)), result[j].conjuncts, n)
    {
      if j < keep {
        assert result[j] == stack[j] && EndOf(result, j, i + 1) == EndOf(stack, j, i);
      }
    }
  }

  lemma TracksStep(rpn: Program, stack: seq<ValueInfo>, i: nat, n: nat)
    requires ValidProgram(rpn, n) && i < |rpn| && rpn[i].Arity() <= |stack|
    requires Tracks(rpn, stack, i, n)
    ensures Tracks(rpn, TrackStep(stack, rpn[i], i), i + 1, n)
  {
    hide Splits;
    var m := |stack|;
    match rpn[i] {
      case Not =>
        var top := stack[m - 1];
        NotSplits(rpn, Slice(top.start, i), top.conjuncts, n);
        TracksNext(rpn, stack, i, n, m - 1, ValueInfo([Slice(top.start, i + 1)], top.start));
      case And =>
        var left, right := stack[m - 2], stack[m - 1];
        AndSplits(rpn, Slice(left.start, right.start), Slice(right.start, i), left.conjuncts, right.conjuncts, n);
        TracksNext(rpn, stack, i, n, m - 2, ValueInfo(Merged(left.conjuncts, right.conjuncts), left.start));
      case Or =>
        var left, right := stack[m - 2], stack[m - 1];
        OrSplits(rpn, Slice(left.start, right.start), Slice(right.start, i), left.conjuncts, right.conjuncts, n);
        TracksNext(rpn, stack, i, n, m - 2, ValueInfo([Slice(left.start, i + 1)], left.start));
      case _ =>
        AtomSplits(rpn, i, n);
        TracksNext(rpn, stack, i, n, m, ValueInfo([Slice(i, i + 1)], i));
        assert stack[..m] == stack;
    }
  }

  lemma {:induction false} TracksRun(rpn: Program, i: nat, n: nat)
    requires ValidProgram(rpn, n) && Runs(rpn, 0) && i <= |rpn| && Runs(rpn[..i], 0)
    ensures Tracks(rpn, TrackRun(rpn[..i]), i, n)
  {
    hide Tracks, TrackStep;
    if i > 0 {
      RunsNext(rpn, 0, i - 1);
      TracksRun(rpn, i - 1, n);
      TracksStep(rpn, TrackRun(rpn[..i - 1]), i - 1, n);
      assert rpn[..i][..i - 1] == rpn[..i - 1];
    } else {
      NothingTracked(rpn, n);
      assert rpn[..i] == [];
    }
  }

  lemma NothingTracked(rpn: Program, n: nat)
    requires ValidProgram(rpn, n)
    ensures Tracks(rpn, [], 0, n)
  {
  }

  /** The top-level conjuncts are disjoint well-formed slices whose conjunction is the whole condition. */
  lemma TopConjunctsSplit(rpn: Program, n: nat)
    requires WellFormed(rpn) && ValidProgram(rpn, n)
    ensures Splits(rpn, Slice(0, |rpn|), TopConjuncts(rpn), n)
  {
    hide Splits;
    assert rpn[..|rpn|] == rpn;
    TracksRun(rpn, |rpn|, n);
    var stack := TrackRun(rpn);
    assert Splits(rpn, Slice(stack[0].start, EndOf(stack, 0, |rpn|)), stack[0].conjuncts, n);
  }

  /** The loop finds the top-level conjuncts. */
  method TopLevelConjunction(rpn: Program, ghost n: nat) returns (conjuncts: seq<Slice>)
    requires WellFormed(rpn) && ValidProgram(rpn, n)
    ensures conjuncts == TopConjuncts(rpn)
    ensures Splits(rpn, Slice(0, |rpn|), conjuncts, n)
  {
    hide Splits;
    var stack: seq<ValueInfo> := [];
    for i := 0 to |rpn|
      invariant Runs(rpn[..i], 0) && stack == TrackRun(rpn[..i])
    {
      RunsNext(rpn, 0, i);
      assert rpn[..i + 1][..i] == rpn[..i];
      stack := TrackElement(stack, rpn[i], i);
    }
    assert rpn[..|rpn|] == rpn;
    TopConjunctsSplit(rpn, n);
    conjuncts := stack[0].conjuncts;
  }

  method TrackElement(stack: seq<ValueInfo>, e: Element, i: nat) returns (result: seq<ValueInfo>)
    requires e.Arity() <= |stack|
    ensures result == TrackStep(stack, e, i)
  {
    var m := |stack|;
    match e {
      case Not => result := stack[..m - 1] + [ValueInfo([Slice(stack[m - 1].start, i + 1)], stack[m - 1].start)];
      case And =>
        var left, right := stack[m - 2], stack[m - 1];
        var merged := if |left.conjuncts| < |right.conjuncts| then right.conjuncts + left.conjuncts
                      else left.conjuncts + right.conjuncts;
        result := stack[..m - 2] + [ValueInfo(merged, left.start)];
      case Or => result := stack[..m - 2] + [ValueInfo([Slice(stack[m - 2].start, i + 1)], stack[m - 2].start)];
      case _ => result := stack + [ValueInfo([Slice(i, i + 1)], i)];
    }
  }

  /** The key columns an element involves, in the order the element lists them. */
  function KeyColumns(e: Element): seq<nat> {
    match e
    case InRange(column, _, _, _, _) => [column]
    case NotInRange(column, _, _, _, _) => [column]
    case InSet(index, _, _) => seq(|index.mapping|, i requires 0 <= i < |index.mapping| => index.mapping[i].column)
    case NotInSet(index, _, _) => seq(|index.mapping|, i requires 0 <= i < |index.mapping| => index.mapping[i].column)
    case IsNull(column, _) => [column]
    case IsNotNull(column, _) => [column]
    case _ => []
  }

  /** Every element of the slice is about column `c` alone, or about none. */
  predicate OnlyColumn(rpn: Program, c: nat) {
    forall i :: 0 <= i < |rpn| ==> KeyColumns(rpn[i]) == [] || KeyColumns(rpn[i]) == [c]
  }

  predicate MentionsColumn(rpn: Program, c: nat) {
    exists i :: 0 <= i < |rpn| && KeyColumns(rpn[i]) == [c]
  }

  /** A conjunct that can be stated for one column. */
  predicate SingleColumn(rpn: Program, c: nat) {
    OnlyColumn(rpn, c) && MentionsColumn(rpn, c)
  }

  /** A range, a NULL test or a one-column set on this column. */
  predicate About(e: Element, c: nat) {
    match e
    case InRange(column, _, _, _, _) => column == c
    case NotInRange(column, _, _, _, _) => column == c
    case IsNull(column, _) => column == c
    case IsNotNull(column, _) => column == c
    case InSet(index, _, _) => |index.mapping| == 1 && index.mapping[0].column == c
    case NotInSet(index, _, _) => |index.mapping| == 1 && index.mapping[0].column == c
    case _ => false
  }

  /** An operator, a constant, an unknown atom or a set over no column. */
  predicate AboutNothing(e: Element) {
    match e
    case InSet(index, _, _) => index.mapping == []
    case NotInSet(index, _, _) => index.mapping == []
    case _ => e.Arity() > 0 || e.Unknown? || e.AlwaysFalse? || e.AlwaysTrue?
  }

  /** A conjunct is about one column if one of its atoms is and no other atom is about another. */
  lemma SingleColumnMeans(rpn: Program, c: nat)
    ensures SingleColumn(rpn, c) <==>
      (forall i :: 0 <= i < |rpn| ==> About(rpn[i], c) || AboutNothing(rpn[i])) && exists i :: 0 <= i < |rpn| && About(rpn[i], c)
  {
    forall i | 0 <= i < |rpn|
      ensures KeyColumns(rpn[i]) == [c] <==> About(rpn[i], c)
      ensures KeyColumns(rpn[i]) == [] <==> AboutNothing(rpn[i])
    {
      ColumnsMean(rpn[i], c);
    }
    hide KeyColumns, About, AboutNothing;
  }

  lemma ColumnsMean(e: Element, c: nat)
    ensures KeyColumns(e) == [c] <==> About(e, c)
    ensures KeyColumns(e) == [] <==> AboutNothing(e)
  {
    if e.InSet? || e.NotInSet? {
      assert |KeyColumns(e)| == |e.index.mapping|;
      if |e.index.mapping| == 1 {
        assert KeyColumns(e) == [e.index.mapping[0].column];
      }
    }
  }

  /** The column of a conjunct, if it is about exactly one. */
  method ClassifyConjunct(part: Program) returns (column: Option<nat>)
    ensures column.Some? ==> SingleColumn(part, column.value)
    ensures column.None? ==> forall c: nat :: !SingleColumn(part, c)
  {
    column := None;
    for i := 0 to |part|
      invariant column.Some? ==> SingleColumn(part[..i], column.value)
      invariant column.None? ==> forall j :: 0 <= j < i ==> KeyColumns(part[j]) == []
    {
      var columns := KeyColumns(part[i]);
      assert part[..i + 1] == part[..i] + [part[i]];
      if |columns| > 1 {
        assert forall c: nat :: KeyColumns(part[i]) != [c];
        return None;
      }
      if |columns| == 1 {
        if column.None? {
          column := Some(columns[0]);
        } else if column.value != columns[0] {
          SingleColumnUnique(part[..i], part, column.value, i);
          return None;
        }
      }
      if column.Some? {
        SingleColumnNext(part[..i], part[i], column.value);
      }
    }
    assert part[..|part|] == part;
  }

  lemma SingleColumnNext(a: Program, e: Element, c: nat)
    requires OnlyColumn(a, c) && (KeyColumns(e) == [] || KeyColumns(e) == [c])
    requires MentionsColumn(a, c) || KeyColumns(e) == [c]
    ensures SingleColumn(a + [e], c)
  {
    var all := a + [e];
    assert all[|a|] == e;
    assert forall i :: 0 <= i < |a| ==> all[i] == a[i];
  }

  lemma SingleColumnUnique(a: Program, whole: Program, c: nat, i: nat)
    requires i < |whole| && a == whole[..i] && MentionsColumn(a, c)
    requires |KeyColumns(whole[i])| == 1 && KeyColumns(whole[i]) != [c]
    ensures forall d: nat :: !SingleColumn(whole, d)
  {
    var j :| 0 <= j < |a| && KeyColumns(a[j]) == [c];
    assert whole[j] == a[j];
    forall d: nat ensures !SingleColumn(whole, d) {
      if d == c {
        assert KeyColumns(whole[i]) != [d];
      } else {
        assert KeyColumns(whole[j]) == [c] != [d];
      }
    }
  }

  predicate InBounds(rpn: Program, ranges: seq<Slice>) {
    forall k :: 0 <= k < |ranges| ==> ranges[k].start <= ranges[k].end <= |rpn|
  }

  /** The slices of a program one after the other, AND-ed together. */
  function Joined(rpn: Program, ranges: seq<Slice>): Program
    requires InBounds(rpn, ranges)
  {
    if ranges == [] then []
    else
      var last := |ranges| - 1;
      Joined(rpn, ranges[..last]) + rpn[ranges[last].start..ranges[last].end] + (if last > 0 then [And] else [])
  }

  method AddRpnRanges(target: Program, source: Program, ranges: seq<Slice>) returns (result: Program)
    requires InBounds(source, ranges)
    ensures result == target + Joined(source, ranges)
  {
    result := target;
    for j := 0 to |ranges|
      invariant result == target + Joined(source, ranges[..j])
    {
      assert ranges[..j + 1][..j] == ranges[..j];
      result := result + source[ranges[j].start..ranges[j].end];
      if j > 0 {
        result := result + [And];
      }
    }
    assert ranges[..|ranges|] == ranges;
  }

  /** A joined condition is well formed and means the conjunction of its slices. */
  lemma {:induction false} JoinedMeaning(rpn: Program, ranges: seq<Slice>, x: Key)
    requires ValidProgram(rpn, |x|) && ranges != [] && InBounds(rpn, ranges)
    requires forall k :: 0 <= k < |ranges| ==> IsTerm(rpn, ranges[k])
    ensures var j := Joined(rpn, ranges);
            WellFormed(j) && ValidProgram(j, |x|) && (Holds(j, x) <==> AllHold(rpn, ranges, x))
    decreases |ranges|
  {
    hide AllHold, Holds, WellFormed, ValidProgram;
    var last := |ranges| - 1;
    var init, s := ranges[..last], ranges[last];
    var part := rpn[s.start..s.end];
    SliceValid(rpn, s, |x|);
    assert ranges == init + [s];
    AllHoldConcat(rpn, init, [s], x);
    AllHoldOne(rpn, s, x);
    if last > 0 {
      JoinedMeaning(rpn, init, x);
      assert Joined(rpn, ranges) == Joined(rpn, init) + part + [And];
      BinaryTerm(Joined(rpn, init), part, And, x);
    } else {
      assert init == [] && Joined(rpn, init) == [];
      assert Joined(rpn, ranges) == part;
    }
  }

  lemma AllHoldOne(rpn: Program, s: Slice, x: Key)
    requires ValidProgram(rpn, |x|)
    ensures AllHold(rpn, [s], x) <==> SliceHolds(rpn, s, x)
    ensures AllHold(rpn, [], x)
  {
    assert [s][0] == s;
  }

  lemma {:induction false} JoinedOnlyColumn(rpn: Program, ranges: seq<Slice>, c: nat)
    requires InBounds(rpn, ranges)
    requires forall k :: 0 <= k < |ranges| ==> OnlyColumn(rpn[ranges[k].start..ranges[k].end], c)
    ensures OnlyColumn(Joined(rpn, ranges), c)
    decreases |ranges|
  {
    if ranges != [] {
      JoinedOnlyColumn(rpn, ranges[..|ranges| - 1], c);
    }
  }

  ghost predicate Complex(rpn: Program, s: Slice) {
    IsTerm(rpn, s) && forall c: nat :: !SingleColumn(rpn[s.start..s.end], c)
  }

  predicate AboutColumn(rpn: Program, s: Slice, c: nat) {
    IsTerm(rpn, s) && SingleColumn(rpn[s.start..s.end], c)
  }

  /** What has been sorted out of the first conjuncts: per column the single-column ones, and the complex rest. */
  ghost predicate Sorted(rpn: Program, done: seq<Slice>, byColumn: seq<seq<Slice>>, complex: seq<Slice>) {
    && (forall k :: 0 <= k < |complex| ==> complex[k] in done && Complex(rpn, complex[k]))
    && (forall c, k :: 0 <= c < |byColumn| && 0 <= k < |byColumn[c]| ==>
          byColumn[c][k] in done && AboutColumn(rpn, byColumn[c][k], c))
    && (forall s :: s in done ==> s in complex || exists c :: 0 <= c < |byColumn| && s in byColumn[c])
  }

  /** Sort the conjuncts by the one column each is about. */
  method GroupConjuncts(rpn: Program, conjuncts: seq<Slice>)
    returns (byColumn: seq<seq<Slice>>, complex: seq<Slice>)
    requires forall k :: 0 <= k < |conjuncts| ==> IsTerm(rpn, conjuncts[k])
    ensures Sorted(rpn, conjuncts, byColumn, complex)
  {
    byColumn, complex := [], [];
    for i := 0 to |conjuncts|
      invariant Sorted(rpn, conjuncts[..i], byColumn, complex)
    {
      var s := conjuncts[i];
      var column := ClassifyConjunct(rpn[s.start..s.end]);
      ghost var done := conjuncts[..i];
      assert conjuncts[..i + 1] == done + [s];
      if column.None? {
        complex := complex + [s];
      } else {
        var c := column.value;
        ghost var before := byColumn;
        if |byColumn| <= c {
          byColumn := byColumn + seq(c + 1 - |byColumn|, _ => []);
        }
        byColumn := byColumn[c := byColumn[c] + [s]];
        assert forall d :: 0 <= d < |before| ==> before[d] <= byColumn[d];
        assert s in byColumn[c];
      }
    }
    assert conjuncts[..|conjuncts|] == conjuncts;
  }

  datatype ColumnCondition = ColumnCondition(column: nat, rpn: Program)

  /** The per-column conditions: well formed, about their own column only, in column order. */
  ghost predicate ProperConditions(conditions: seq<ColumnCondition>, n: nat) {
    && (forall k :: 0 <= k < |conditions| ==>
          WellFormed(conditions[k].rpn) && ValidProgram(conditions[k].rpn, n)
          && OnlyColumn(conditions[k].rpn, conditions[k].column))
    && (forall j, k :: 0 <= j < k < |conditions| ==> conditions[j].column < conditions[k].column)
  }

  ghost predicate ConditionsHold(conditions: seq<ColumnCondition>, x: Key)
    requires ProperConditions(conditions, |x|)
  {
    forall k :: 0 <= k < |conditions| ==> Holds(conditions[k].rpn, x)
  }

  /** Every slice that is filed under one of the first `c` columns holds. */
  ghost predicate ColumnsHold(rpn: Program, byColumn: seq<seq<Slice>>, c: nat, x: Key)
    requires ValidProgram(rpn, |x|) && c <= |byColumn|
  {
    forall d :: 0 <= d < c ==> AllHold(rpn, byColumn[d], x)
  }

  lemma SortedMeaning(rpn: Program, done: seq<Slice>, byColumn: seq<seq<Slice>>, complex: seq<Slice>, x: Key)
    requires ValidProgram(rpn, |x|) && Sorted(rpn, done, byColumn, complex)
    ensures AllHold(rpn, done, x) <==> ColumnsHold(rpn, byColumn, |byColumn|, x) && AllHold(rpn, complex, x)
  {
    hide IsTerm;
    if ColumnsHold(rpn, byColumn, |byColumn|, x) && AllHold(rpn, complex, x) {
      forall k | 0 <= k < |done| ensures SliceHolds(rpn, done[k], x) {
        var s := done[k];
        assert s in done;
        if s !in complex {
          var c :| 0 <= c < |byColumn| && s in byColumn[c];
          assert AllHold(rpn, byColumn[c], x);
        }
      }
    }
    if AllHold(rpn, done, x) {
      assert forall s :: s in done ==> SliceHolds(rpn, s, x);
    }
  }

  /** The slices of one column as a condition of their own. */
  lemma ColumnCorrect(rpn: Program, done: seq<Slice>, byColumn: seq<seq<Slice>>, complex: seq<Slice>, c: nat, n: nat)
    requires ValidProgram(rpn, n) && Sorted(rpn, done, byColumn, complex) && c < |byColumn| && byColumn[c] != []
    ensures InBounds(rpn, byColumn[c])
    ensures var p := Joined(rpn, byColumn[c]);
            && WellFormed(p) && ValidProgram(p, n) && OnlyColumn(p, c)
            && forall x: Key :: |x| == n ==> (Holds(p, x) <==> AllHold(rpn, byColumn[c], x))
  {
    var ranges := byColumn[c];
    assert forall k :: 0 <= k < |ranges| ==> AboutColumn(rpn, ranges[k], c);
    JoinedOnlyColumn(rpn, ranges, c);
    var y: Key := seq(n, _ => 0.0);
    JoinedMeaning(rpn, ranges, y);
    forall x: Key | |x| == n
      ensures Holds(Joined(rpn, ranges), x) <==> AllHold(rpn, ranges, x)
    {
      JoinedMeaning(rpn, ranges, x);
    }
  }

  /** One condition per non-empty column. */
  method BuildColumnConditions(
    rpn: Program, ghost done: seq<Slice>, byColumn: seq<seq<Slice>>, ghost complex: seq<Slice>, n: nat)
    returns (conditions: seq<ColumnCondition>)
    requires ValidProgram(rpn, n) && Sorted(rpn, done, byColumn, complex)
    ensures ProperConditions(conditions, n)
    ensures forall x: Key :: |x| == n ==> (ConditionsHold(conditions, x) <==> ColumnsHold(rpn, byColumn, |byColumn|, x))
  {
    hide WellFormed, OnlyColumn, Holds, SliceHolds, Sorted, InBounds, Joined;
    conditions := [];
    for c := 0 to |byColumn|
      invariant ProperConditions(conditions, n)
      invariant forall k :: 0 <= k < |conditions| ==> conditions[k].column < c
      invariant forall x: Key :: |x| == n ==> (ConditionsHold(conditions, x) <==> ColumnsHold(rpn, byColumn, c, x))
    {
      if byColumn[c] != [] {
        ColumnCorrect(rpn, done, byColumn, complex, c, n);
        var program := AddRpnRanges([], rpn, byColumn[c]);
        assert program == Joined(rpn, byColumn[c]);
        ConditionsNext(rpn, byColumn, c, n, conditions, program);
        conditions := conditions + [ColumnCondition(c, program)];
      }
    }
  }

  lemma ConditionsNext(
    rpn: Program, byColumn: seq<seq<Slice>>, c: nat, n: nat, conditions: seq<ColumnCondition>, program: Program)
    requires ValidProgram(rpn, n) && c < |byColumn| && ProperConditions(conditions, n)
    requires forall k :: 0 <= k < |conditions| ==> conditions[k].column < c
    requires forall x: Key :: |x| == n ==> (ConditionsHold(conditions, x) <==> ColumnsHold(rpn, byColumn, c, x))
    requires WellFormed(program) && ValidProgram(program, n) && OnlyColumn(program, c)
    requires forall x: Key :: |x| == n ==> (Holds(program, x) <==> AllHold(rpn, byColumn[c], x))
    ensures var next := conditions + [ColumnCondition(c, program)];
            && ProperConditions(next, n)
            && forall x: Key :: |x| == n ==> (ConditionsHold(next, x) <==> ColumnsHold(rpn, byColumn, c + 1, x))
  {
    hide WellFormed, OnlyColumn, Holds, AllHold;
    var next := conditions + [ColumnCondition(c, program)];
    assert next[|conditions|].rpn == program;
    assert forall k :: 0 <= k < |conditions| ==> next[k] == conditions[k];
    forall x: Key | |x| == n
      ensures ConditionsHold(next, x) <==> ConditionsHold(conditions, x) && Holds(program, x)
      ensures ColumnsHold(rpn, byColumn, c + 1, x) <==> ColumnsHold(rpn, byColumn, c, x) && AllHold(rpn, byColumn[c], x)
    {
    }
  }

  /** The conditions per column together with the complex conjuncts are equivalent to the original condition.
      `complexCopy` is the condition built from the complex conjuncts; it is never stored to the out parameter. */
  method ExtractSingleColumnConditions(rpn: Program, numKeyColumns: nat, outComplexBefore: Option<Program>)
    returns (conditions: seq<ColumnCondition>, complexConjuncts: seq<Slice>, complexCopy: Option<Program>,
             outComplex: Option<Program>)
    requires WellFormed(rpn) && ValidProgram(rpn, numKeyColumns)
    ensures ProperConditions(conditions, numKeyColumns)
    ensures forall k :: 0 <= k < |complexConjuncts| ==> Complex(rpn, complexConjuncts[k])
    ensures forall x: Key :: |x| == numKeyColumns ==>
      (Holds(rpn, x) <==> ConditionsHold(conditions, x) && AllHold(rpn, complexConjuncts, x))
    ensures complexCopy.Some? ==>
      && WellFormed(complexCopy.value) && ValidProgram(complexCopy.value, numKeyColumns)
      && forall x: Key :: |x| == numKeyColumns ==> (Holds(complexCopy.value, x) <==> AllHold(rpn, complexConjuncts, x))
    ensures complexCopy.None? <==> complexConjuncts == []
    ensures outComplex == outComplexBefore
  {
    outComplex := outComplexBefore;
    var n := numKeyColumns;
    var conjuncts := TopLevelConjunction(rpn, n);
    assert forall k :: 0 <= k < |conjuncts| ==> Conjunct(rpn, Slice(0, |rpn|), conjuncts[k]);
    var byColumn;
    byColumn, complexConjuncts := GroupConjuncts(rpn, conjuncts);
    conditions := BuildColumnConditions(rpn, conjuncts, byColumn, complexConjuncts, n);
    forall x: Key | |x| == n
      ensures Holds(rpn, x) <==> ConditionsHold(conditions, x) && AllHold(rpn, complexConjuncts, x)
    {
      SortedMeaning(rpn, conjuncts, byColumn, complexConjuncts, x);
      assert SliceHolds(rpn, Slice(0, |rpn|), x) <==> AllHold(rpn, conjuncts, x);
      assert rpn[0..|rpn|] == rpn;
    }
    complexCopy := None;
    if complexConjuncts != [] {
      forall k | 0 <= k < |complexConjuncts| ensures IsTerm(rpn, complexConjuncts[k]) {
        assert Complex(rpn, complexConjuncts[k]);
      }
      assert InBounds(rpn, complexConjuncts);
      if conditions == [] {
        complexCopy := Some(rpn);
      } else {
        var program := AddRpnRanges([], rpn, complexConjuncts);
        assert program == Joined(rpn, complexConjuncts);
        complexCopy := Some(program);
      }
      var y: Key := seq(n, _ => 0.0);
      JoinedMeaning(rpn, complexConjuncts, y);
      forall x: Key | |x| == n
        ensures Holds(complexCopy.value, x) <==> AllHold(rpn, complexConjuncts, x)
      {
        JoinedMeaning(rpn, complexConjuncts, x);
      }
    }
  }
}
