/** Exact ranges and conservative bounds of a condition on one key column (extractPlainRanges, extractBounds). */
module PlainRanges {
  import opened Options
  import opened Ranges
  import opened RangeLists
  import opened Rpn
  import opened Conjunction
  import opened ExactRange
  import opened Readings

  /** A set on the one key column: rows of one component, in strictly ascending order. */
  predicate OrderedSet(index: SetIndex) {
    && |index.mapping| == 1
    && (forall k :: 0 <= k < |index.rows| ==> |index.rows[k]| == 1)
    && (forall j, k :: 0 <= j < k < |index.rows| ==> index.rows[j][0] < index.rows[k][0])
  }

  /** The parts of a key condition that these two methods look at. */
  datatype KeyCondition = KeyCondition(rpn: Program, keyColumns: seq<nat>, numKeyColumns: nat, hasFilter: bool) {

    ghost predicate Valid() {
      && WellFormed(rpn) && ValidProgram(rpn, numKeyColumns)
      && (|keyColumns| == 1 ==> keyColumns[0] < numKeyColumns && OnlyColumn(rpn, keyColumns[0]))
      && forall i :: 0 <= i < |rpn| && (rpn[i].InSet? || rpn[i].NotInSet?) && |keyColumns| == 1 ==> OrderedSet(rpn[i].index)
    }
  }

  /** The atom is meant as its range or set test, and reads as true if unknown without a filter. */
  ghost predicate Plain(e: Element, hasFilter: bool) {
    match e
    case InRange(_, _, _, relaxed, _) => !relaxed
    case NotInRange(_, _, _, relaxed, _) => !relaxed
    case InSet(_, relaxed, _) => !relaxed
    case NotInSet(_, relaxed, _) => !relaxed
    case Unknown(truth) => hasFilter || forall x :: truth(x)
    case _ => true
  }

  ghost predicate PlainProgram(rpn: Program, hasFilter: bool) {
    forall i :: 0 <= i < |rpn| ==> Plain(rpn[i], hasFilter)
  }

  predicate HasChain(e: Element) {
    || ((e.InRange? || e.NotInRange?) && e.chain != [])
    || ((e.InSet? || e.NotInSet?) && exists i :: 0 <= i < |e.index.mapping| && e.index.mapping[i].chain != [])
  }

  /** Ranges that hold exactly the values of column `c` at which the element is true. */
  ghost predicate ExactFor(ranges: RangeList, e: Element, c: nat, n: nat)
    requires e.Arity() == 0 && e.Valid(n)
  {
    forall x: Key :: |x| == n && c < n ==> (Covers(ranges, x[c]) <==> e.Truth(x))
  }

  /** An atom stays an atom when it is read as its range or set test. */
  ghost predicate OptimisticAtom(e: Element, n: nat) {
    Optimistic(e).Arity() == 0 && Optimistic(e).Valid(n)
  }

  lemma SetMembership(index: SetIndex, c: nat, x: Key)
    requires OrderedSet(index) && index.Valid(|x|) && c < |x|
    requires index.mapping[0].column == c && index.mapping[0].chain == []
    ensures index.Contains(x) <==> AmongRows(index.rows, x[c])
  {
    assert forall k :: 0 <= k < |index.rows| ==> (index.RowMatches(index.rows[k], x) <==> index.rows[k][0] == x[c]);
  }

  /** The range of the atom holds some value. */
  predicate ProperAtom(e: Element) {
    e.InRange? || e.NotInRange? ==> Proper(e.range)
  }

  predicate ProperAtoms(rpn: Program) {
    forall i :: 0 <= i < |rpn| ==> ProperAtom(rpn[i])
  }

  predicate AllPlain(stack: seq<RangeList>) {
    forall j :: 0 <= j < |stack| ==> PlainList(stack[j])
  }

  /** The ranges of one atom, or None where the source gives up. */
  method AtomRanges(e: Element, ghost c: nat, hasFilter: bool, ghost n: nat) returns (ranges: Option<RangeList>)
    requires e.Arity() == 0 && e.Valid(n) && c < n
    requires KeyColumns(e) == [] || KeyColumns(e) == [c]
    requires (e.InSet? || e.NotInSet?) ==> OrderedSet(e.index)
    requires !((e.InRange? || e.NotInRange?) && e.chain != [])
    ensures ranges.Some? ==> OptimisticAtom(e, n) && ExactFor(ranges.value, Optimistic(e), c, n)
    ensures ranges.None? <==> (HasChain(e) || (e.Unknown? && hasFilter))
    ensures ranges.Some? && ProperAtom(e) ==> PlainList(ranges.value)
  {
    match e {
      case InRange(column, range, _, _, _) =>
        assert KeyColumns(e)[0] == column;
        assert [range][0] == range;
        ranges := Some([range]);
      case NotInRange(column, range, _, _, _) =>
        assert KeyColumns(e)[0] == column;
        ranges := Some(InvertRange(range));
      case InSet(index, _, _) =>
        if exists i :: 0 <= i < |index.mapping| && index.mapping[i].chain != [] {
          return None;
        }
        assert KeyColumns(e)[0] == index.mapping[0].column;
        forall x: Key | |x| == n ensures index.Contains(x) <==> AmongRows(index.rows, x[c]) {
          SetMembership(index, c, x);
        }
        if index.rows == [] {
          ranges := Some([]);
        } else {
          var points := PointRanges(index.rows);
          ranges := Some(points);
        }
      case NotInSet(index, _, _) =>
        if exists i :: 0 <= i < |index.mapping| && index.mapping[i].chain != [] {
          return None;
        }
        assert KeyColumns(e)[0] == index.mapping[0].column;
        forall x: Key | |x| == n ensures index.Contains(x) <==> AmongRows(index.rows, x[c]) {
          SetMembership(index, c, x);
        }
        if index.rows == [] {
          assert [UNIVERSE][0] == UNIVERSE;
          ranges := Some([UNIVERSE]);
        } else {
          var gaps := GapRanges(index.rows);
          ranges := Some(gaps);
        }
      case AlwaysFalse => ranges := Some([]);
      case AlwaysTrue =>
        assert [UNIVERSE][0] == UNIVERSE;
        ranges := Some([UNIVERSE]);
      case IsNull(_, _) => ranges := Some([]);
      case IsNotNull(_, _) =>
        assert [UNIVERSE][0] == UNIVERSE;
        ranges := Some([UNIVERSE]);
      case Unknown(_) =>
        if hasFilter {
          return None;
        }
        assert [UNIVERSE][0] == UNIVERSE;
        ranges := Some([UNIVERSE]);
    }
  }

  ghost predicate StackCovers(stack: seq<RangeList>, truths: seq<bool>, x: real) {
    |stack| == |truths| && forall j :: 0 <= j < |stack| ==> (Covers(stack[j], x) <==> truths[j])
  }

  /** Each list on the stack holds exactly the column values at which its part of the program is true. */
  ghost predicate StackExact(stack: seq<RangeList>, rpn: Program, c: nat, n: nat)
    requires Runs(rpn, 0) && ValidProgram(rpn, n) && c < n
  {
    forall x: Key :: |x| == n ==> StackCovers(stack, Run(rpn, x, []), x[c])
  }

  /** One element of the program: an operator combines the topmost lists, an atom pushes its own. */
  method RangeStep(stack: seq<RangeList>, e: Element, ghost c: nat, hasFilter: bool, ghost n: nat)
    returns (result: Option<seq<RangeList>>)
    requires e.Arity() <= |stack| && e.Valid(n) && c < n
    requires KeyColumns(e) == [] || KeyColumns(e) == [c]
    requires (e.InSet? || e.NotInSet?) ==> OrderedSet(e.index)
    requires !((e.InRange? || e.NotInRange?) && e.chain != [])
    ensures result.Some? ==> |result.value| == |stack| - e.Arity() + 1
    ensures Optimistic(e).Arity() == e.Arity() && Optimistic(e).Valid(n)
    ensures result.Some? ==>
      forall x: Key, truths :: |x| == n && StackCovers(stack, truths, x[c]) ==>
        StackCovers(result.value, Step(Optimistic(e), x, truths), x[c])
    ensures result.None? <==> HasChain(e) || (e.Unknown? && hasFilter)
    ensures result.Some? && AllPlain(stack) && ProperAtom(e) ==> AllPlain(result.value)
  {
    OptimisticElement(e, n);
    hide PlainList, ProperAtom, Covers, ExactFor, Element.Truth, Element.Valid, OrderedSet;
    var m := |stack|;
    match e {
      case And =>
        var both := IntersectWith(stack[m - 2], stack[m - 1]);
        result := Some(stack[..m - 2] + [both]);
      case Or =>
        var either := UnionWith(stack[m - 2], stack[m - 1]);
        result := Some(stack[..m - 2] + [either]);
      case Not =>
        var inverted := InvertAndIntersect(stack[m - 1]);
        result := Some(stack[..m - 1] + [inverted]);
      case _ =>
        var ranges := AtomRanges(e, c, hasFilter, n);
        if ranges.None? {
          return None;
        }
        PushAtom(stack, ranges.value, Optimistic(e), c, n);
        result := Some(stack + [ranges.value]);
    }
  }

  lemma OptimisticElement(e: Element, n: nat)
    requires e.Valid(n)
    ensures Optimistic(e).Arity() == e.Arity() && Optimistic(e).Valid(n)
  {
  }

  lemma PushAtom(stack: seq<RangeList>, ranges: RangeList, e: Element, c: nat, n: nat)
    requires e.Arity() == 0 && e.Valid(n) && c < n && ExactFor(ranges, e, c, n)
    ensures forall x: Key, truths :: |x| == n && StackCovers(stack, truths, x[c]) ==>
              StackCovers(stack + [ranges], Step(e, x, truths), x[c])
  {
    hide Covers;
    forall x: Key, truths | |x| == n && StackCovers(stack, truths, x[c])
      ensures StackCovers(stack + [ranges], Step(e, x, truths), x[c])
    {
      assert Step(e, x, truths) == truths + [e.Truth(x)];
    }
  }

  lemma StackExactNext(
    stack: seq<RangeList>, next: seq<RangeList>, rpn: Program, i: nat, c: nat, n: nat)
    requires Runs(rpn, 0) && ValidProgram(rpn, n) && c < n && i < |rpn|
    requires Runs(rpn[..i], 0) && Runs(rpn[..i + 1], 0) && StackExact(stack, rpn[..i], c, n)
    requires rpn[i].Arity() <= |stack|
    requires forall x: Key, truths :: |x| == n && StackCovers(stack, truths, x[c]) ==>
      StackCovers(next, Step(rpn[i], x, truths), x[c])
    ensures StackExact(next, rpn[..i + 1], c, n)
  {
    hide Run;
    forall x: Key | |x| == n ensures StackCovers(next, Run(rpn[..i + 1], x, []), x[c]) {
      RunNext(rpn, x, [], i);
    }
  }

  lemma OptimisticStart(rpn: Program, c: nat, n: nat)
    requires Runs(rpn, 0) && ValidProgram(rpn, n) && c < n
    ensures
      var opt := OptimisticProgram(rpn);
      && Runs(opt, 0) && ValidProgram(opt, n) && Height(opt, 0) == Height(rpn, 0)
      && Runs(opt[..0], 0) && ValidProgram(opt[..0], n) && Height(opt[..0], 0) == 0 && StackExact([], opt[..0], c, n)
  {
    OptimisticRuns(rpn, 0);
    OptimisticValid(rpn, n);
  }

  lemma OptimisticAt(rpn: Program, i: nat, c: nat, n: nat)
    requires ValidProgram(rpn, n) && i < |rpn| && OnlyColumn(rpn, c)
    ensures
      var e, opt := rpn[i], OptimisticProgram(rpn);
      && opt[i] == Optimistic(e) && e.Valid(n) && Optimistic(e).Valid(n) && Optimistic(e).Arity() == e.Arity()
      && ValidProgram(opt, n) && ValidProgram(opt[..i + 1], n)
      && (KeyColumns(e) == [] || KeyColumns(e) == [c])
      && (HasChain(e) || !((e.InRange? || e.NotInRange?) && e.chain != []))
  {
    OptimisticElement(rpn[i], n);
    OptimisticValid(rpn, n);
  }

  lemma NothingPlain()
    ensures AllPlain([])
  {
  }

  lemma ProperAt(rpn: Program, i: nat)
    requires i < |rpn|
    ensures ProperAtoms(rpn) ==> ProperAtom(rpn[i])
  {
  }

  /** The loop over the program's elements. */
  method RunRanges(rpn: Program, hasFilter: bool, ghost c: nat, ghost n: nat) returns (result: Option<seq<RangeList>>)
    requires Runs(rpn, 0) && ValidProgram(rpn, n) && c < n && OnlyColumn(rpn, c)
    requires forall i :: 0 <= i < |rpn| ==> !HasChain(rpn[i])
    requires forall i :: 0 <= i < |rpn| && (rpn[i].InSet? || rpn[i].NotInSet?) ==> OrderedSet(rpn[i].index)
    ensures result.Some? <==> forall i :: 0 <= i < |rpn| ==> !(rpn[i].Unknown? && hasFilter)
    ensures Runs(OptimisticProgram(rpn), 0) && ValidProgram(OptimisticProgram(rpn), n)
    ensures result.Some? ==> |result.value| == Height(rpn, 0) && StackExact(result.value, OptimisticProgram(rpn), c, n)
    ensures result.Some? && ProperAtoms(rpn) ==> AllPlain(result.value)
  {
    hide *;
    ghost var opt := OptimisticProgram(rpn);
    OptimisticStart(rpn, c, n);
    var stack: seq<RangeList> := [];
    NothingPlain();
    for i := 0 to |rpn|
      invariant Runs(opt[..i], 0) && ValidProgram(opt[..i], n) && |stack| == Height(opt[..i], 0)
      invariant StackExact(stack, opt[..i], c, n)
      invariant forall j :: 0 <= j < i ==> !(rpn[j].Unknown? && hasFilter)
      invariant ProperAtoms(rpn) ==> AllPlain(stack)
    {
      ProperAt(rpn, i);
      RunsNext(opt, 0, i);
      OptimisticAt(rpn, i, c, n);
      var next := RangeStep(stack, rpn[i], c, hasFilter, n);
      if next.None? {
        return None;
      }
      StackExactNext(stack, next.value, opt, i, c, n);
      stack := next.value;
    }
    assert opt[..|opt|] == opt;
    return Some(stack);
  }

  /**
   * When ranges are extracted, they cover exactly the keys that satisfy the condition with each atom read as its range or
   * set test; for a plain condition that is the condition itself. They lose no key that satisfies a condition with these
   * tests and flags if and only if they lose none of its most favourable reading, and add no key if and only if they add
   * none to its least favourable one.
   */
  method ExtractPlainRanges(k: KeyCondition) returns (ranges: Option<RangeList>)
    requires k.Valid()
    ensures ranges.Some? <==> |k.keyColumns| == 1 && Extractable(k.rpn, k.hasFilter)
    ensures ranges.Some? && ProperAtoms(k.rpn) ==> PlainList(ranges.value)
    ensures ranges.Some? ==>
      forall x: Key :: |x| == k.numKeyColumns ==> (Covers(ranges.value, x[k.keyColumns[0]]) <==> HoldsOptimistically(k.rpn, x))
    ensures ranges.Some? && PlainProgram(k.rpn, k.hasFilter) ==>
      forall x: Key :: |x| == k.numKeyColumns ==> (Covers(ranges.value, x[k.keyColumns[0]]) <==> Holds(k.rpn, x))
    ensures ranges.Some? ==>
      forall x: Key :: |x| == k.numKeyColumns ==>
        var covered := Covers(ranges.value, x[k.keyColumns[0]]);
        && ((forall other :: AlikeHolds(k.rpn, other, x) ==> covered) <==> (ReadingHolds(k.rpn, true, x) ==> covered))
        && ((forall other :: Alike(k.rpn, other) && covered ==> AlikeHolds(k.rpn, other, x))
            <==> (covered ==> ReadingHolds(k.rpn, false, x)))
  {
    if |k.keyColumns| != 1 {
      return None;
    }
    if exists i :: 0 <= i < |k.rpn| && HasChain(k.rpn[i]) {
      return None;
    }
    var c := k.keyColumns[0];
    var stack := RunRanges(k.rpn, k.hasFilter, c, k.numKeyColumns);
    if stack.None? {
      return None;
    }
    forall x: Key | |x| == k.numKeyColumns
      ensures Covers(stack.value[0], x[c]) <==> HoldsOptimistically(k.rpn, x)
    {
      assert StackCovers(stack.value, Run(OptimisticProgram(k.rpn), x, []), x[c]);
    }
    if PlainProgram(k.rpn, k.hasFilter) {
      PlainLeans(k.rpn, k.hasFilter);
      forall x: Key | |x| == k.numKeyColumns ensures HoldsOptimistically(k.rpn, x) <==> Holds(k.rpn, x) {
        LeanMeaning(k.rpn, x);
      }
    }
    ranges := Some(stack.value[0]);
    hide Covers, HoldsOptimistically, Holds, PlainProgram, WellFormed, Alike, AlikeHolds, ReadingHolds;
    forall x: Key | |x| == k.numKeyColumns
      ensures
        var covered := Covers(ranges.value, x[c]);
        && ((forall other :: AlikeHolds(k.rpn, other, x) ==> covered) <==> (ReadingHolds(k.rpn, true, x) ==> covered))
        && ((forall other :: Alike(k.rpn, other) && covered ==> AlikeHolds(k.rpn, other, x))
            <==> (covered ==> ReadingHolds(k.rpn, false, x)))
    {
      AnswerExact(k.rpn, x, Covers(ranges.value, x[c]));
    }
  }

  predicate Extractable(rpn: Program, hasFilter: bool) {
    forall i :: 0 <= i < |rpn| ==> !HasChain(rpn[i]) && !(rpn[i].Unknown? && hasFilter)
  }

  /** Extraction needs bare key columns, and no unknown atoms beside a filter. */
  lemma ExtractableMeans(rpn: Program, hasFilter: bool)
    ensures Extractable(rpn, hasFilter) <==>
      forall i :: 0 <= i < |rpn| ==>
        match rpn[i]
        case InRange(_, _, chain, _, _) => chain == []
        case NotInRange(_, _, chain, _, _) => chain == []
        case InSet(index, _, _) => forall m :: 0 <= m < |index.mapping| ==> index.mapping[m].chain == []
        case NotInSet(index, _, _) => forall m :: 0 <= m < |index.mapping| ==> index.mapping[m].chain == []
        case Unknown(_) => !hasFilter
        case _ => true
  {
  }

  // ---- what reading an atom as its test does to the condition ----

  lemma {:induction false} AlikeTestRun(rpn: Program, other: Program, x: Key)
    requires Runs(rpn, 0) && ValidProgram(rpn, |x|) && Alike(rpn, other)
    ensures Runs(OptimisticProgram(rpn), 0) && ValidProgram(OptimisticProgram(rpn), |x|)
    ensures Runs(OptimisticProgram(other), 0) && ValidProgram(OptimisticProgram(other), |x|)
    ensures Run(OptimisticProgram(other), x, []) == Run(OptimisticProgram(rpn), x, [])
    decreases |rpn|
  {
    hide AlikeElement, Optimistic, Step, Element.Valid;
    AlikeHeight(rpn, other, 0);
    AlikeValid(rpn, other, |x|);
    OptimisticRuns(rpn, 0);
    OptimisticRuns(other, 0);
    OptimisticValid(rpn, |x|);
    OptimisticValid(other, |x|);
    if rpn != [] {
      var last := |rpn| - 1;
      AlikeTestRun(rpn[..last], other[..last], x);
      assert OptimisticProgram(rpn)[..last] == OptimisticProgram(rpn[..last]);
      assert OptimisticProgram(other)[..last] == OptimisticProgram(other[..last]);
      AlikeTest(rpn[last], other[last], x, Run(OptimisticProgram(rpn[..last]), x, []));
    }
  }

  lemma AlikeTest(e: Element, f: Element, x: Key, stack: seq<bool>)
    requires AlikeElement(e, f) && Optimistic(e).Valid(|x|) && Optimistic(f).Valid(|x|)
    requires Optimistic(e).Arity() <= |stack|
    ensures Optimistic(f).Arity() == Optimistic(e).Arity()
    ensures Step(Optimistic(f), x, stack) == Step(Optimistic(e), x, stack)
  {
  }

  /** Alike conditions are the same to these methods. */
  lemma AlikeTests(rpn: Program, other: Program, x: Key)
    requires WellFormed(rpn) && ValidProgram(rpn, |x|) && Alike(rpn, other)
    ensures WellFormed(other) && ValidProgram(other, |x|)
    ensures HoldsOptimistically(other, x) <==> HoldsOptimistically(rpn, x)
  {
    AlikeHeight(rpn, other, 0);
    AlikeValid(rpn, other, |x|);
    AlikeTestRun(rpn, other, x);
  }

  /** The optimistic reading is true wherever the element is (`over`), or only there (`under`). */
  datatype Lean = Lean(over: bool, under: bool)

  ghost function AtomLean(e: Element): Lean {
    match e
    case InRange(_, _, _, relaxed, _) => Lean(true, !relaxed)
    case NotInRange(_, _, _, relaxed, _) => Lean(!relaxed, true)
    case InSet(_, relaxed, _) => Lean(true, !relaxed)
    case NotInSet(_, relaxed, _) => Lean(!relaxed, true)
    case Unknown(truth) => Lean(true, forall x :: truth(x))
    case _ => Lean(true, true)
  }

  /** NOT turns the direction around, AND and OR keep what both operands have. */
  ghost function LeanStep(e: Element, stack: seq<Lean>): (r: seq<Lean>)
    requires e.Arity() <= |stack|
    ensures |r| == |stack| - e.Arity() + 1
  {
    var n := |stack|;
    match e
    case Not => stack[..n - 1] + [Lean(stack[n - 1].under, stack[n - 1].over)]
    case And => stack[..n - 2] + [Both(stack[n - 2], stack[n - 1])]
    case Or => stack[..n - 2] + [Both(stack[n - 2], stack[n - 1])]
    case _ => stack + [AtomLean(e)]
  }

  function Both(a: Lean, b: Lean): Lean {
    Lean(a.over && b.over, a.under && b.under)
  }

  ghost function LeanRun(rpn: Program): (r: seq<Lean>)
    requires Runs(rpn, 0)
    ensures |r| == Height(rpn, 0)
    decreases |rpn|
  {
    if rpn == [] then [] else LeanStep(rpn[|rpn| - 1], LeanRun(rpn[..|rpn| - 1]))
  }

  ghost function LeanOf(rpn: Program): Lean
    requires WellFormed(rpn)
  {
    LeanRun(rpn)[0]
  }

  ghost predicate Leans(leans: seq<Lean>, truths: seq<bool>, optimistic: seq<bool>) {
    && |leans| == |truths| == |optimistic|
    && forall i :: 0 <= i < |leans| ==>
         && (leans[i].over && truths[i] ==> optimistic[i])
         && (leans[i].under && optimistic[i] ==> truths[i])
  }

  lemma AtomLeanSound(e: Element, x: Key)
    requires e.Valid(|x|) && e.Arity() == 0
    ensures Optimistic(e).Valid(|x|) && Optimistic(e).Arity() == 0
    ensures AtomLean(e).over && e.Truth(x) ==> Optimistic(e).Truth(x)
    ensures AtomLean(e).under && Optimistic(e).Truth(x) ==> e.Truth(x)
  {
  }

  lemma LeanStepSound(e: Element, x: Key, leans: seq<Lean>, truths: seq<bool>, optimistic: seq<bool>)
    requires e.Valid(|x|) && e.Arity() <= |leans| && Leans(leans, truths, optimistic)
    ensures Optimistic(e).Valid(|x|) && Optimistic(e).Arity() == e.Arity()
    ensures Leans(LeanStep(e, leans), Step(e, x, truths), Step(Optimistic(e), x, optimistic))
  {
    OptimisticElement(e, |x|);
    if e.Arity() == 0 {
      AtomLeanSound(e, x);
      hide Element.Truth, Element.Valid, Optimistic, AtomLean;
      AtomSteps(e, x, leans, truths);
      AtomSteps(Optimistic(e), x, leans, optimistic);
    } else {
      assert Optimistic(e) == e;
      hide Element.Truth, Element.Valid, Optimistic, AtomLean;
      OperatorLeanSound(e, x, leans, truths, optimistic);
    }
  }

  lemma AtomSteps(e: Element, x: Key, leans: seq<Lean>, truths: seq<bool>)
    requires e.Valid(|x|) && e.Arity() == 0
    ensures LeanStep(e, leans) == leans + [AtomLean(e)] && Step(e, x, truths) == truths + [e.Truth(x)]
  {
  }

  lemma OperatorLeanSound(e: Element, x: Key, leans: seq<Lean>, truths: seq<bool>, optimistic: seq<bool>)
    requires e.Valid(|x|) && 0 < e.Arity() <= |leans| && Leans(leans, truths, optimistic)
    ensures Leans(LeanStep(e, leans), Step(e, x, truths), Step(e, x, optimistic))
  {
    hide Element.Truth, Element.Valid, AtomLean;
    var n := |leans|;
    assert leans[n - 1].over && truths[n - 1] ==> optimistic[n - 1];
    assert leans[n - 1].under && optimistic[n - 1] ==> truths[n - 1];
  }

  lemma {:induction false} LeanRunSound(rpn: Program, x: Key)
    requires Runs(rpn, 0) && ValidProgram(rpn, |x|)
    ensures Runs(OptimisticProgram(rpn), 0) && ValidProgram(OptimisticProgram(rpn), |x|)
    ensures Leans(LeanRun(rpn), Run(rpn, x, []), Run(OptimisticProgram(rpn), x, []))
    decreases |rpn|
  {
    hide Leans, LeanStep, Optimistic, Step;
    OptimisticRuns(rpn, 0);
    OptimisticValid(rpn, |x|);
    if rpn != [] {
      var init, e := rpn[..|rpn| - 1], rpn[|rpn| - 1];
      LeanRunSound(init, x);
      assert OptimisticProgram(rpn)[..|rpn| - 1] == OptimisticProgram(init);
      LeanStepSound(e, x, LeanRun(init), Run(init, x, []), Run(OptimisticProgram(init), x, []));
    } else {
      NothingLeans();
    }
  }

  lemma NothingLeans()
    ensures Leans([], [], [])
  {
  }

  /** Where it leans over, the optimistic reading accepts every key that the condition accepts; where it leans under, no other. */
  lemma LeanMeaning(rpn: Program, x: Key)
    requires WellFormed(rpn) && ValidProgram(rpn, |x|)
    ensures LeanOf(rpn).over && Holds(rpn, x) ==> HoldsOptimistically(rpn, x)
    ensures LeanOf(rpn).under && HoldsOptimistically(rpn, x) ==> Holds(rpn, x)
  {
    LeanRunSound(rpn, x);
  }

  lemma {:induction false} PlainLeansAll(rpn: Program, hasFilter: bool)
    requires Runs(rpn, 0) && PlainProgram(rpn, hasFilter) && Extractable(rpn, hasFilter)
    ensures forall i :: 0 <= i < |LeanRun(rpn)| ==> LeanRun(rpn)[i] == Lean(true, true)
    decreases |rpn|
  {
    if rpn != [] {
      var init, e := rpn[..|rpn| - 1], rpn[|rpn| - 1];
      PlainLeansAll(init, hasFilter);
      assert Plain(e, hasFilter);
    }
  }

  lemma PlainLeans(rpn: Program, hasFilter: bool)
    requires WellFormed(rpn) && PlainProgram(rpn, hasFilter) && Extractable(rpn, hasFilter)
    ensures LeanOf(rpn) == Lean(true, true)
  {
    PlainLeansAll(rpn, hasFilter);
  }

  function RelaxedAtom(): Element {
    InRange(0, Point(Fin(1.0)), [], true, (x: Key) => false)
  }

  /** A relaxed range under NOT. */
  function RelaxedNot(): KeyCondition {
    KeyCondition([RelaxedAtom()] + [Not], [0], 1, true)
  }

  lemma RelaxedNotValid()
    ensures RelaxedNot().Valid() && Extractable(RelaxedNot().rpn, true)
  {
    AtomTerm(RelaxedAtom(), [1.0]);
    NotTerm([RelaxedAtom()], [1.0]);
  }

  lemma RelaxedNotHolds()
    ensures RelaxedNot().Valid() && Holds(RelaxedNot().rpn, [1.0]) && !HoldsOptimistically(RelaxedNot().rpn, [1.0])
  {
    RelaxedNotValid();
    var atom, x := RelaxedAtom(), [1.0];
    var test := Optimistic(atom);
    assert !atom.Truth(x) && test.Truth(x);
    AtomTerm(atom, x);
    AtomTerm(test, x);
    hide Run, Element.Truth, Element.Valid, KeyCondition.Valid;
    NotTerm([atom], x);
    NotTerm([test], x);
    assert OptimisticProgram([atom] + [Not]) == [test] + [Not];
  }

  lemma RelaxedNotLeans()
    ensures RelaxedNot().Valid() && !LeanOf(RelaxedNot().rpn).over
  {
    RelaxedNotValid();
    var atom := RelaxedAtom();
    hide KeyCondition.Valid;
    assert ([atom] + [Not])[..1] == [atom] && [atom][..0] == [];
    assert LeanRun([]) == [];
    assert LeanRun([atom]) == [Lean(true, false)];
  }

  /** The condition holds at a key that no extracted range covers. */
  method RelaxedNotExample() returns (ranges: Option<RangeList>)
    ensures RelaxedNot().Valid() && !LeanOf(RelaxedNot().rpn).over && Holds(RelaxedNot().rpn, [1.0])
    ensures ranges.Some? && !Covers(ranges.value, 1.0)
  {
    RelaxedNotValid();
    RelaxedNotHolds();
    RelaxedNotLeans();
    hide Holds, HoldsOptimistically, Covers, KeyCondition.Valid, Extractable, LeanOf;
    var x: Key := [1.0];
    ranges := ExtractPlainRanges(RelaxedNot());
    assert x[0] == 1.0;
  }

  // ---- bounds ----

  /** One top-level conjunct as a condition of its own (always with a filter). */
  function OneConjunct(k: KeyCondition, s: Slice): KeyCondition
    requires s.start <= s.end <= |k.rpn|
  {
    k.(rpn := k.rpn[s.start..s.end], hasFilter := true)
  }

  ghost predicate ExtractableSlice(rpn: Program, s: Slice) {
    IsTerm(rpn, s) && Extractable(rpn[s.start..s.end], true)
  }

  ghost predicate SliceHoldsOptimistically(rpn: Program, s: Slice, x: Key)
    requires ValidProgram(rpn, |x|)
  {
    IsTerm(rpn, s) && (SliceValid(rpn, s, |x|); HoldsOptimistically(rpn[s.start..s.end], x))
  }

  /** Every conjunct whose ranges can be extracted holds, each atom read as its range or set test. */
  ghost predicate ExtractedHold(rpn: Program, conjuncts: seq<Slice>, x: Key)
    requires ValidProgram(rpn, |x|)
  {
    forall j :: 0 <= j < |conjuncts| && ExtractableSlice(rpn, conjuncts[j]) ==> SliceHoldsOptimistically(rpn, conjuncts[j], x)
  }

  lemma ConjunctValid(k: KeyCondition, s: Slice)
    requires k.Valid() && IsTerm(k.rpn, s)
    ensures OneConjunct(k, s).Valid()
    ensures PlainProgram(k.rpn, true) ==> PlainProgram(OneConjunct(k, s).rpn, true)
  {
    var part := k.rpn[s.start..s.end];
    assert forall i :: 0 <= i < |part| ==> part[i] == k.rpn[s.start + i];
  }

  lemma ConjunctOf(rpn: Program, conjuncts: seq<Slice>, i: nat, n: nat)
    requires ValidProgram(rpn, n) && Splits(rpn, Slice(0, |rpn|), conjuncts, n) && i < |conjuncts|
    ensures IsTerm(rpn, conjuncts[i])
  {
    assert Conjunct(rpn, Slice(0, |rpn|), conjuncts[i]);
  }

  lemma ExtractedNext(rpn: Program, conjuncts: seq<Slice>, i: nat, x: Key)
    requires ValidProgram(rpn, |x|) && i < |conjuncts|
    ensures ExtractedHold(rpn, conjuncts[..i + 1], x)
       <==> ExtractedHold(rpn, conjuncts[..i], x)
            && (ExtractableSlice(rpn, conjuncts[i]) ==> SliceHoldsOptimistically(rpn, conjuncts[i], x))
  {
    hide ExtractableSlice, SliceHoldsOptimistically;
    var shorter, longer := conjuncts[..i], conjuncts[..i + 1];
    assert longer[i] == conjuncts[i];
    assert forall j :: 0 <= j < i ==> longer[j] == shorter[j];
  }

  lemma PrefixHolds(rpn: Program, conjuncts: seq<Slice>, i: nat, x: Key)
    requires ValidProgram(rpn, |x|) && i <= |conjuncts|
    ensures ExtractedHold(rpn, conjuncts, x) ==> ExtractedHold(rpn, conjuncts[..i], x)
  {
    hide ExtractableSlice, SliceHoldsOptimistically;
    assert forall j :: 0 <= j < i ==> conjuncts[..i][j] == conjuncts[j];
  }

  /** A condition none of whose extractable conjuncts has a relaxed atom on the wrong side of a NOT. */
  ghost predicate ConjunctsLeanOver(rpn: Program, conjuncts: seq<Slice>) {
    forall j :: 0 <= j < |conjuncts| && ExtractableSlice(rpn, conjuncts[j]) ==>
      LeanOf(rpn[conjuncts[j].start..conjuncts[j].end]).over
  }

  /** Then every key that satisfies the condition is inside the bounds. */
  lemma LeaningBoundsCover(rpn: Program, conjuncts: seq<Slice>, x: Key)
    requires ValidProgram(rpn, |x|) && WellFormed(rpn) && Splits(rpn, Slice(0, |rpn|), conjuncts, |x|)
    requires ConjunctsLeanOver(rpn, conjuncts)
    ensures Holds(rpn, x) ==> ExtractedHold(rpn, conjuncts, x)
  {
    assert rpn[0..|rpn|] == rpn;
    if Holds(rpn, x) {
      assert AllHold(rpn, conjuncts, x);
      forall j | 0 <= j < |conjuncts| && ExtractableSlice(rpn, conjuncts[j])
        ensures SliceHoldsOptimistically(rpn, conjuncts[j], x)
      {
        var s := conjuncts[j];
        SliceValid(rpn, s, |x|);
        assert SliceHolds(rpn, s, x);
        LeanMeaning(rpn[s.start..s.end], x);
      }
    }
  }

  /** If every conjunct can be extracted and is plain, the bounds are exact: they cover a key if and only if it satisfies
      the condition. */
  lemma BoundsExact(rpn: Program, conjuncts: seq<Slice>, x: Key)
    requires ValidProgram(rpn, |x|) && WellFormed(rpn) && Splits(rpn, Slice(0, |rpn|), conjuncts, |x|)
    requires forall j :: 0 <= j < |conjuncts| ==>
               ExtractableSlice(rpn, conjuncts[j]) && LeanOf(rpn[conjuncts[j].start..conjuncts[j].end]) == Lean(true, true)
    ensures Holds(rpn, x) <==> ExtractedHold(rpn, conjuncts, x)
  {
    LeaningBoundsCover(rpn, conjuncts, x);
    assert rpn[0..|rpn|] == rpn;
    if ExtractedHold(rpn, conjuncts, x) {
      forall j | 0 <= j < |conjuncts| ensures SliceHolds(rpn, conjuncts[j], x) {
        var s := conjuncts[j];
        assert ExtractableSlice(rpn, s);
        SliceValid(rpn, s, |x|);
        assert SliceHoldsOptimistically(rpn, s, x);
        LeanMeaning(rpn[s.start..s.end], x);
      }
    }
  }

  /**
   * The exact conditions, conjunct by conjunct. No condition with these tests and flags has a key outside the bounds if and
   * only if a key at which the most favourable readings of all conjuncts hold is inside; and every key inside satisfies
   * all of them if and only if the least favourable readings of all conjuncts hold there.
   */
  lemma BoundsCover(rpn: Program, x: Key)
    requires ValidProgram(rpn, |x|) && WellFormed(rpn)
    ensures
      var conjuncts := TopConjuncts(rpn);
      var inside := ExtractedHold(rpn, conjuncts, x);
      && ((forall other :: AlikeHolds(rpn, other, x) ==> inside)
          <==> ((forall j :: 0 <= j < |conjuncts| ==> SliceReadingHolds(rpn, conjuncts[j], true, x)) ==> inside))
      && ((forall other :: Alike(rpn, other) && inside ==> AlikeHolds(rpn, other, x))
          <==> (inside ==> forall j :: 0 <= j < |conjuncts| ==> SliceReadingHolds(rpn, conjuncts[j], false, x)))
  {
    hide ExtractedHold, TopConjuncts, AlikeHolds, Alike, ReadingHolds, SliceReadingHolds, WellFormed, ValidProgram;
    ConjunctsReading(rpn, true, x);
    ConjunctsReading(rpn, false, x);
    AnswerExact(rpn, x, ExtractedHold(rpn, TopConjuncts(rpn), x));
  }

  lemma PlainBounds(k: KeyCondition, conjuncts: seq<Slice>)
    requires k.Valid() && Splits(k.rpn, Slice(0, |k.rpn|), conjuncts, k.numKeyColumns)
    ensures PlainProgram(k.rpn, true) ==>
      forall x: Key :: |x| == k.numKeyColumns && Holds(k.rpn, x) ==> ExtractedHold(k.rpn, conjuncts, x)
  {
    forall j | 0 <= j < |conjuncts| && ExtractableSlice(k.rpn, conjuncts[j]) && PlainProgram(k.rpn, true)
      ensures LeanOf(k.rpn[conjuncts[j].start..conjuncts[j].end]).over
    {
      ConjunctValid(k, conjuncts[j]);
      PlainLeans(k.rpn[conjuncts[j].start..conjuncts[j].end], true);
    }
    forall x: Key | |x| == k.numKeyColumns && Holds(k.rpn, x) && PlainProgram(k.rpn, true)
      ensures ExtractedHold(k.rpn, conjuncts, x)
    {
      LeaningBoundsCover(k.rpn, conjuncts, x);
    }
  }

  /** The bounds cover exactly the keys at which every extractable top-level conjunct holds. */
  method ExtractBounds(k: KeyCondition) returns (bounds: RangeList)
    requires k.Valid()
    ensures |k.keyColumns| == 1 && k.hasFilter ==>
      Bounding(bounds, k.rpn, TopConjuncts(k.rpn), k.keyColumns[0], k.numKeyColumns)
    ensures PlainProgram(k.rpn, true) && |k.keyColumns| == 1 ==>
      forall x: Key :: |x| == k.numKeyColumns && Holds(k.rpn, x) ==> Covers(bounds, x[k.keyColumns[0]])
    ensures |k.keyColumns| != 1 || !k.hasFilter ==> bounds == [UNIVERSE]
    ensures ProperAtoms(k.rpn) ==> PlainList(bounds)
  {
    bounds := [UNIVERSE];
    UniverseIsPlain();
    assert bounds[0] == UNIVERSE;
    if |k.keyColumns| != 1 || !k.hasFilter {
      return;
    }
    var rpn, n, c := k.rpn, k.numKeyColumns, k.keyColumns[0];
    var extractedAny := false;
    var all := TopLevelConjunction(rpn, n);
    PlainBounds(k, all);
    hide PlainList, ProperAtoms, TopConjuncts, Covers, ExtractedHold, Splits, ExtractableSlice, SliceHoldsOptimistically, Bounding, PlainProgram, KeyCondition.Valid;
    BoundingStart(rpn, c, n);
    for i := 0 to |all|
      invariant !extractedAny ==> bounds == [UNIVERSE]
      invariant Bounding(bounds, rpn, all[..i], c, n)
      invariant ProperAtoms(rpn) ==> PlainList(bounds)
    {
      ConjunctOf(rpn, all, i, n);
      var conjunctRanges := ConjunctRanges(k, all[i], c);
      BoundingSkip(bounds, rpn, all, i, c, n);
      if conjunctRanges.Some? {
        extractedAny := true;
        if conjunctRanges.value == [] {
          BoundingNext(bounds, conjunctRanges.value, [], rpn, all, i, c, n);
          BoundingEmpty(rpn, all, i + 1, c, n);
          return [];
        }
        var before := bounds;
        bounds := IntersectWith(bounds, conjunctRanges.value);
        BoundingNext(before, conjunctRanges.value, bounds, rpn, all, i, c, n);
        if bounds == [] {
          BoundingEmpty(rpn, all, i + 1, c, n);
          return [];
        }
      }
    }
    assert all[..|all|] == all;
    if !extractedAny {
      bounds := [UNIVERSE];
    }
  }

  /** The ranges of one conjunct, taken by itself. */
  method ConjunctRanges(k: KeyCondition, s: Slice, ghost c: nat) returns (ranges: Option<RangeList>)
    requires k.Valid() && |k.keyColumns| == 1 && c == k.keyColumns[0] && IsTerm(k.rpn, s)
    ensures ranges.Some? <==> ExtractableSlice(k.rpn, s)
    ensures ranges.Some? && ProperAtoms(k.rpn) ==> PlainList(ranges.value)
    ensures ranges.Some? ==>
      forall x: Key :: |x| == k.numKeyColumns ==> (Covers(ranges.value, x[c]) <==> SliceHoldsOptimistically(k.rpn, s, x))
  {
    ConjunctValid(k, s);
    ranges := ExtractPlainRanges(OneConjunct(k, s));
  }

  /** The ranges cover exactly the keys at which the extractable ones of these conjuncts hold. */
  ghost predicate Bounding(bounds: RangeList, rpn: Program, conjuncts: seq<Slice>, c: nat, n: nat)
    requires ValidProgram(rpn, n) && c < n
  {
    forall x: Key :: |x| == n ==> (Covers(bounds, x[c]) <==> ExtractedHold(rpn, conjuncts, x))
  }

  /** Exact bounds cover nothing, and are an empty list, if and only if no key satisfies the condition. */
  lemma BoundsEmpty(bounds: RangeList, rpn: Program, conjuncts: seq<Slice>, c: nat, n: nat)
    requires ValidProgram(rpn, n) && WellFormed(rpn) && c < n
    requires Splits(rpn, Slice(0, |rpn|), conjuncts, n) && Bounding(bounds, rpn, conjuncts, c, n)
    requires forall j :: 0 <= j < |conjuncts| ==>
               ExtractableSlice(rpn, conjuncts[j]) && LeanOf(rpn[conjuncts[j].start..conjuncts[j].end]) == Lean(true, true)
    ensures (forall v :: !Covers(bounds, v)) <==> (forall x: Key | |x| == n :: !Holds(rpn, x))
    ensures PlainList(bounds) ==> (bounds == [] <==> forall x: Key | |x| == n :: !Holds(rpn, x))
  {
    if PlainList(bounds) {
      PlainOnce(bounds);
    }
    hide PlainList, Covers, ExtractedHold, ExtractableSlice, Splits, Holds, WellFormed;
    forall x: Key | |x| == n ensures Holds(rpn, x) <==> Covers(bounds, x[c]) {
      BoundsExact(rpn, conjuncts, x);
    }
    forall v ensures Covers(bounds, v) ==> exists x: Key :: |x| == n && Holds(rpn, x) {
      var x: Key := seq(n, _ => v);
      assert x[c] == v;
    }
  }

  lemma BoundingStart(rpn: Program, c: nat, n: nat)
    requires ValidProgram(rpn, n) && c < n
    ensures forall all: seq<Slice> :: Bounding([UNIVERSE], rpn, all[..0], c, n)
  {
    assert [UNIVERSE][0] == UNIVERSE;
  }

  lemma BoundingSkip(bounds: RangeList, rpn: Program, all: seq<Slice>, i: nat, c: nat, n: nat)
    requires ValidProgram(rpn, n) && c < n && i < |all| && Bounding(bounds, rpn, all[..i], c, n)
    ensures !ExtractableSlice(rpn, all[i]) ==> Bounding(bounds, rpn, all[..i + 1], c, n)
  {
    hide Covers, ExtractedHold, ExtractableSlice, SliceHoldsOptimistically;
    forall x: Key | |x| == n && !ExtractableSlice(rpn, all[i])
      ensures Covers(bounds, x[c]) <==> ExtractedHold(rpn, all[..i + 1], x)
    {
      ExtractedNext(rpn, all, i, x);
    }
  }

  lemma BoundingNext(bounds: RangeList, ranges: RangeList, next: RangeList, rpn: Program, all: seq<Slice>, i: nat, c: nat, n: nat)
    requires ValidProgram(rpn, n) && c < n && i < |all| && Bounding(bounds, rpn, all[..i], c, n)
    requires ExtractableSlice(rpn, all[i])
    requires forall x: Key :: |x| == n ==> (Covers(ranges, x[c]) <==> SliceHoldsOptimistically(rpn, all[i], x))
    requires next == ranges == [] || forall y :: Covers(next, y) <==> Covers(bounds, y) && Covers(ranges, y)
    ensures Bounding(next, rpn, all[..i + 1], c, n)
  {
    hide ExtractedHold, ExtractableSlice, SliceHoldsOptimistically;
    forall x: Key | |x| == n ensures Covers(next, x[c]) <==> ExtractedHold(rpn, all[..i + 1], x) {
      ExtractedNext(rpn, all, i, x);
    }
  }

  lemma BoundingEmpty(rpn: Program, all: seq<Slice>, i: nat, c: nat, n: nat)
    requires ValidProgram(rpn, n) && c < n && i <= |all| && Bounding([], rpn, all[..i], c, n)
    ensures Bounding([], rpn, all, c, n)
  {
    hide ExtractedHold;
    forall x: Key | |x| == n ensures !ExtractedHold(rpn, all, x) {
      PrefixHolds(rpn, all, i, x);
      assert !Covers([], x[c]);
    }
  }
}
