/** What the masks of atoms, programs and intervals are, and why they are sound (checkInHyperrectangle). */
module Masks {
  import opened Options
  import opened BoolMasks
  import opened Ranges
  import opened Hyperrectangles
  import opened Rpn

  /** One function of a chain: finite ends are mapped and become included, infinite ends stay. */
  function ApplyFunctionToRange(f: KeyFunction, r: Range, isPositive: bool): Range {
    var r1 := if r.left.Fin? then r.(left := Fin(f.apply(r.left.value)), leftIncluded := true) else r;
    var r2 := if r1.right.Fin? then r1.(right := Fin(f.apply(r1.right.value)), rightIncluded := true) else r1;
    if isPositive then r2 else r2.Invert()
  }

  function ApplyChainToRange(r: Range, chain: Chain): Option<Range>
    decreases |chain|
  {
    if chain == [] then Some(r)
    else
      var m := chain[0].monotonicity(r.left, r.right);
      if !m.isMonotonic then None
      else ApplyChainToRange(ApplyFunctionToRange(chain[0], r, m.isPositive), chain[1..])
  }

  /** The image of a range under a chain of functions, where one is computed, covers the image of each of its values. */
  lemma {:induction false} ChainRangeCoversImage(r: Range, chain: Chain, x: real)
    requires HonestChain(chain) && r.Has(x)
    ensures ApplyChainToRange(r, chain).Some? ==> ApplyChainToRange(r, chain).value.Has(ApplyChain(chain, x))
    decreases |chain|
  {
    if chain != [] {
      var f := chain[0];
      var m := f.monotonicity(r.left, r.right);
      if m.isMonotonic {
        ChainRangeCoversImage(ApplyFunctionToRange(f, r, m.isPositive), chain[1..], f.apply(x));
      }
    }
  }

  /** Intersection and containment answer for a range test on a range of keys. */
  function RangeMask(range: Range, keys: Range): BoolMask {
    BoolMask(range.IntersectsRange(keys), !range.ContainsRange(keys))
  }

  function Relax(m: BoolMask, relaxed: bool): BoolMask {
    if relaxed then m.(canBeFalse := true) else m
  }

  /** The mask an atom pushes for a box. */
  function AtomMask(e: Element, box: Box): BoolMask
    requires e.Arity() == 0
    requires (e.InRange? || e.NotInRange? || e.IsNull? || e.IsNotNull?) ==> e.column < |box|
  {
    match e
    case InRange(column, range, chain, relaxed, _) =>
      (match ApplyChainToRange(box[column], chain)
       case None => BoolMask(true, true)
       case Some(keys) => Relax(RangeMask(range, keys), relaxed))
    case NotInRange(column, range, chain, relaxed, _) =>
      (match ApplyChainToRange(box[column], chain)
       case None => BoolMask(true, true)
       case Some(keys) => Relax(RangeMask(range, keys), relaxed).Not())
    case IsNull(column, relaxed) => Relax(RangeMask(UNIVERSE, box[column]), relaxed).Not()
    case IsNotNull(column, relaxed) => Relax(RangeMask(UNIVERSE, box[column]), relaxed)
    case InSet(index, relaxed, _) => Relax(index.checkInRange(box), relaxed)
    case NotInSet(index, relaxed, _) => Relax(index.checkInRange(box), relaxed).Not()
    case Unknown(_) => BoolMask(true, true)
    case AlwaysFalse => BoolMask(false, true)
    case AlwaysTrue => BoolMask(true, false)
  }

  /** Columns of the range and null atoms lie inside the box. */
  predicate ColumnsBelow(rpn: Program, n: nat) {
    forall i :: 0 <= i < |rpn| ==>
      ((rpn[i].InRange? || rpn[i].NotInRange? || rpn[i].IsNull? || rpn[i].IsNotNull?) ==> rpn[i].column < n)
  }

  function MaskStep(e: Element, box: Box, stack: seq<BoolMask>): seq<BoolMask>
    requires e.Arity() <= |stack| && ColumnsBelow([e], |box|)
    ensures |MaskStep(e, box, stack)| == |stack| - e.Arity() + 1
  {
    var n := |stack|;
    match e
    case Not => stack[..n - 1] + [stack[n - 1].Not()]
    case And => stack[..n - 2] + [stack[n - 1].And(stack[n - 2])]
    case Or => stack[..n - 2] + [stack[n - 1].Or(stack[n - 2])]
    case _ => assert [e][0] == e; stack + [AtomMask(e, box)]
  }

  function MaskRun(rpn: Program, box: Box): seq<BoolMask>
    requires Runs(rpn, 0) && ColumnsBelow(rpn, |box|)
    ensures |MaskRun(rpn, box)| == Height(rpn, 0)
    decreases |rpn|
  {
    if rpn == [] then []
    else MaskStep(rpn[|rpn| - 1], box, MaskRun(rpn[..|rpn| - 1], box))
  }

  /** The answer for one box. */
  function BoxMask(rpn: Program, box: Box): BoolMask
    requires WellFormed(rpn) && ColumnsBelow(rpn, |box|)
  {
    MaskRun(rpn, box)[0]
  }

  lemma AtomSound(e: Element, box: Box, x: Key)
    requires e.Arity() == 0 && e.Valid(|x|) && InBox(box, x)
    ensures AtomMask(e, box).Admits(e.Truth(x))
  {
    if e.InRange? || e.NotInRange? {
      ChainRangeCoversImage(box[e.column], e.chain, x[e.column]);
    } else if e.IsNull? || e.IsNotNull? {
      assert box[e.column].Has(x[e.column]);
    }
  }

  ghost predicate StackSound(masks: seq<BoolMask>, truths: seq<bool>) {
    |masks| == |truths| && forall i :: 0 <= i < |masks| ==> masks[i].Admits(truths[i])
  }

  lemma StepSound(e: Element, box: Box, x: Key, masks: seq<BoolMask>, truths: seq<bool>)
    requires e.Arity() <= |masks| && e.Valid(|x|) && ColumnsBelow([e], |x|) && InBox(box, x)
    requires StackSound(masks, truths)
    ensures StackSound(MaskStep(e, box, masks), Step(e, x, truths))
  {
    var n := |masks|;
    if e.Arity() == 0 {
      assert [e][0] == e;
      AtomSound(e, box, x);
    } else {
      assert masks[n - 1].Admits(truths[n - 1]);
    }
  }

  lemma {:induction false} RunSound(rpn: Program, box: Box, x: Key)
    requires Runs(rpn, 0) && ValidProgram(rpn, |x|) && ColumnsBelow(rpn, |x|) && InBox(box, x)
    ensures StackSound(MaskRun(rpn, box), Run(rpn, x, []))
  {
    if rpn != [] {
      var init, e := rpn[..|rpn| - 1], rpn[|rpn| - 1];
      RunSound(init, box, x);
      StepSound(e, box, x, MaskRun(init, box), Run(init, x, []));
    }
  }

  /** One box: whatever the condition says at a tuple of the box, the answer allows for it. */
  lemma BoxMaskSound(rpn: Program, box: Box, x: Key)
    requires WellFormed(rpn) && ValidProgram(rpn, |x|) && InBox(box, x)
    ensures ColumnsBelow(rpn, |x|) && BoxMask(rpn, box).Admits(Holds(rpn, x))
  {
    RunSound(rpn, box, x);
  }

  /** A tuple inside some box is accounted for in the combined answer. */
  lemma {:induction false} CombinedSound(rpn: Program, callback: Box -> BoolMask, boxes: seq<Box>, x: Key)
    requires WellFormed(rpn) && ValidProgram(rpn, |x|) && ColumnsBelow(rpn, |x|)
    requires forall box :: |box| == |x| ==> callback(box) == BoxMask(rpn, box)
    requires Count(boxes, x) > 0
    ensures CombineAll(callback, boxes).Admits(Holds(rpn, x))
  {
    if InBox(boxes[0], x) {
      BoxMaskSound(rpn, boxes[0], x);
    } else {
      CombinedSound(rpn, callback, boxes[1..], x);
    }
  }

  lemma {:induction false} IntervalOrdered(left: seq<Endpoint>, right: seq<Endpoint>, x: Key, i: nat)
    requires |left| == |right| == |x| && i <= |x|
    requires AtLeast(left, x, i) && AtMost(right, x, i)
    ensures Ordered(left, right, i)
    decreases |x| - i
  {
    if i < |x| && left[i] == right[i] {
      IntervalOrdered(left, right, x, i + 1);
    }
  }

  function BoxCallback(rpn: Program, n: nat): Box -> BoolMask
    requires WellFormed(rpn) && ColumnsBelow(rpn, n)
  {
    (box: Box) => if |box| == n then BoxMask(rpn, box) else BoolMask(true, true)
  }

  /** The answers of all boxes of the interval, combined. */
  function RangeAnswer(leftKeys: seq<Endpoint>, rightKeys: seq<Endpoint>, rpn: Program): BoolMask
    requires |leftKeys| == |rightKeys| && WellFormed(rpn) && ColumnsBelow(rpn, |leftKeys|)
  {
    CombineAll(BoxCallback(rpn, |leftKeys|), Boxes(leftKeys, rightKeys, true, true, UniverseBox(|leftKeys|), 0))
  }
}
