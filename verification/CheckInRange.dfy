/** The abstract interpreter over boxes and over key intervals (checkInHyperrectangle, checkInRange). */
module CheckInRange {
  import opened Options
  import opened BoolMasks
  import opened Ranges
  import opened Hyperrectangles
  import opened Rpn
  import opened Masks
  import opened Readings
  import opened Pruning

  method ApplyMonotonicFunctionsChainToRange(range: Range, functions: Chain) returns (result: Option<Range>)
    ensures result == ApplyChainToRange(range, functions)
  {
    var keyRange := range;
    for i := 0 to |functions|
      invariant ApplyChainToRange(keyRange, functions[i..]) == ApplyChainToRange(range, functions)
    {
      var monotonicity := functions[i].monotonicity(keyRange.left, keyRange.right);
      assert functions[i..][1..] == functions[i + 1..];
      if !monotonicity.isMonotonic {
        return None;
      }
      if keyRange.left.Fin? {
        keyRange := keyRange.(left := Fin(functions[i].apply(keyRange.left.value)), leftIncluded := true);
      }
      if keyRange.right.Fin? {
        keyRange := keyRange.(right := Fin(functions[i].apply(keyRange.right.value)), rightIncluded := true);
      }
      if !monotonicity.isPositive {
        keyRange := keyRange.Invert();
      }
    }
    return Some(keyRange);
  }

  method CheckElement(element: Element, hyperrectangle: Box, rpnStack: seq<BoolMask>) returns (stack: seq<BoolMask>)
    requires element.Arity() <= |rpnStack| && ColumnsBelow([element], |hyperrectangle|)
    ensures stack == MaskStep(element, hyperrectangle, rpnStack)
  {
    assert [element][0] == element;
    var n := |rpnStack|;
    stack := rpnStack;
    match element {
      case Unknown(_) => stack := stack + [BoolMask(true, true)];
      case InRange(column, range, chain, relaxed, _) =>
        var m := RangeAtom(hyperrectangle[column], range, chain, relaxed, false);
        stack := stack + [m];
      case NotInRange(column, range, chain, relaxed, _) =>
        var m := RangeAtom(hyperrectangle[column], range, chain, relaxed, true);
        stack := stack + [m];
      case IsNull(column, relaxed) =>
        stack := stack + [Relax(RangeMask(UNIVERSE, hyperrectangle[column]), relaxed).Not()];
      case IsNotNull(column, relaxed) =>
        stack := stack + [Relax(RangeMask(UNIVERSE, hyperrectangle[column]), relaxed)];
      case InSet(index, relaxed, _) => stack := stack + [Relax(index.checkInRange(hyperrectangle), relaxed)];
      case NotInSet(index, relaxed, _) => stack := stack + [Relax(index.checkInRange(hyperrectangle), relaxed).Not()];
      case Not => stack := stack[..n - 1] + [stack[n - 1].Not()];
      case And => stack := stack[..n - 2] + [stack[n - 1].And(stack[n - 2])];
      case Or => stack := stack[..n - 2] + [stack[n - 1].Or(stack[n - 2])];
      case AlwaysFalse => stack := stack + [BoolMask(false, true)];
      case AlwaysTrue => stack := stack + [BoolMask(true, false)];
    }
  }

  method CheckInHyperrectangle(rpn: Program, hyperrectangle: Box) returns (result: BoolMask)
    requires WellFormed(rpn) && ColumnsBelow(rpn, |hyperrectangle|)
    ensures result == BoxMask(rpn, hyperrectangle)
  {
    var stack: seq<BoolMask> := [];
    for i := 0 to |rpn|
      invariant Runs(rpn[..i], 0) && stack == MaskRun(rpn[..i], hyperrectangle)
    {
      RunsNext(rpn, 0, i);
      assert rpn[..i + 1][..i] == rpn[..i];
      stack := CheckElement(rpn[i], hyperrectangle, stack);
    }
    assert rpn[..|rpn|] == rpn;
    return stack[0];
  }

  method RangeAtom(keys: Range, range: Range, chain: Chain, relaxed: bool, negated: bool) returns (m: BoolMask)
    ensures m == match ApplyChainToRange(keys, chain)
                 case None => BoolMask(true, true)
                 case Some(r) => var q := Relax(RangeMask(range, r), relaxed); if negated then q.Not() else q
  {
    var image := ApplyMonotonicFunctionsChainToRange(keys, chain);
    if image.None? {
      return BoolMask(true, true);
    }
    m := Relax(RangeMask(range, image.value), relaxed);
    if negated {
      m := m.Not();
    }
  }

  /** Pruning is sound for every interval of key tuples, and the early-exit mask never changes the component asked for:
      what `initialMask` leaves open is answered as if every box had been checked. For plain atoms on different columns and
      finite ends it is also complete. */
  method CheckInRange(usedKeySize: nat, leftKeys: seq<Endpoint>, rightKeys: seq<Endpoint>, rpn: Program,
                      initialMask: BoolMask)
    returns (result: BoolMask)
    requires |leftKeys| == |rightKeys| == usedKeySize
    requires WellFormed(rpn) && ValidProgram(rpn, usedKeySize)
    ensures forall x :: InInterval(leftKeys, rightKeys, x) && Holds(rpn, x) && !initialMask.canBeTrue ==> result.canBeTrue
    ensures forall x :: InInterval(leftKeys, rightKeys, x) && !Holds(rpn, x) && !initialMask.canBeFalse ==> result.canBeFalse
    ensures AgreesWhereAsked(result, RangeAnswer(leftKeys, rightKeys, rpn), initialMask)
    ensures Exact(leftKeys, rightKeys, rpn) && !initialMask.canBeTrue ==>
              (result.canBeTrue <==> exists x :: InInterval(leftKeys, rightKeys, x) && ReadingHolds(rpn, true, x))
    ensures Exact(leftKeys, rightKeys, rpn) && !initialMask.canBeFalse ==>
              (result.canBeFalse <==> exists x :: InInterval(leftKeys, rightKeys, x) && !ReadingHolds(rpn, false, x))
  {
    var keyRanges := new Range[usedKeySize](_ => UNIVERSE);
    assert keyRanges[..] == UniverseBox(usedKeySize);
    var callback := BoxCallback(rpn, usedKeySize);
    ghost var visited;
    result, visited := ForAnyHyperrectangle(leftKeys, rightKeys, true, true, keyRanges, 0, initialMask, callback);
    forall x | InInterval(leftKeys, rightKeys, x)
      ensures RangeAnswer(leftKeys, rightKeys, rpn).Admits(Holds(rpn, x))
    {
      IntervalOrdered(leftKeys, rightKeys, x, 0);
      BoxesPartitionInterval(leftKeys, rightKeys, x);
      CombinedSound(rpn, callback, Boxes(leftKeys, rightKeys, true, true, UniverseBox(usedKeySize), 0), x);
    }
    if Exact(leftKeys, rightKeys, rpn) {
      PlainAnswerExact(leftKeys, rightKeys, rpn);
    }
  }

  method MayBeTrueInRange(usedKeySize: nat, leftKeys: seq<Endpoint>, rightKeys: seq<Endpoint>, rpn: Program)
    returns (result: bool)
    requires |leftKeys| == |rightKeys| == usedKeySize
    requires WellFormed(rpn) && ValidProgram(rpn, usedKeySize)
    ensures forall x :: InInterval(leftKeys, rightKeys, x) && Holds(rpn, x) ==> result
    ensures ColumnsBelow(rpn, usedKeySize) && result == RangeAnswer(leftKeys, rightKeys, rpn).canBeTrue
    ensures Exact(leftKeys, rightKeys, rpn) ==>
              (result <==> exists x :: InInterval(leftKeys, rightKeys, x) && ReadingHolds(rpn, true, x))
  {
    var mask := CheckInRange(usedKeySize, leftKeys, rightKeys, rpn, CONSIDER_ONLY_CAN_BE_TRUE);
    result := mask.canBeTrue;
  }
}
