/** How far the interpreter over boxes prunes: for conditions that mention each key column once its answer is exact. */
module Pruning {
  import opened Options
  import opened BoolMasks
  import opened Ranges
  import opened Hyperrectangles
  import opened Rpn
  import opened Masks
  import opened Readings

  // ---- one column ----

  ghost predicate Inhabited(r: Range) {
    exists v: real :: r.Has(v)
  }

  /** An infinite end counts as not included. */
  predicate Canonical(r: Range) {
    (r.leftIncluded ==> r.left.Fin?) && (r.rightIncluded ==> r.right.Fin?)
  }

  /** Two inhabited ranges that are reported to intersect share a value. */
  lemma CommonValue(a: Range, b: Range) returns (v: real)
    requires Inhabited(a) && Inhabited(b) && a.IntersectsRange(b)
    ensures a.Has(v) && b.Has(v)
  {
    var x: real :| a.Has(x);
    var y: real :| b.Has(y);
    if a.Has(y) {
      return y;
    }
    if b.Has(x) {
      return x;
    }
    if x < y {
      v := (b.left.value + a.right.value) / 2.0;
    } else {
      v := (a.left.value + b.right.value) / 2.0;
    }
  }

  /** An inhabited range that is reported not to be contained has a value outside. */
  lemma OutsideValue(range: Range, keys: Range) returns (v: real)
    requires Inhabited(keys) && Canonical(keys) && !range.ContainsRange(keys)
    ensures keys.Has(v) && !range.Has(v)
  {
    var y: real :| keys.Has(y);
    if !range.Has(y) {
      return y;
    }
    if Less(keys.left, range.left) {
      v := if keys.left.Fin? then (keys.left.value + range.left.value) / 2.0 else range.left.value - 1.0;
    } else if keys.leftIncluded && !range.leftIncluded && keys.left == range.left {
      v := keys.left.value;
    } else if Less(range.right, keys.right) {
      v := if keys.right.Fin? then (keys.right.value + range.right.value) / 2.0 else range.right.value + 1.0;
    } else {
      v := keys.right.value;
    }
  }

  // ---- boxes ----

  ghost predicate Solid(box: Box) {
    forall i :: 0 <= i < |box| ==> Inhabited(box[i]) && Canonical(box[i])
  }

  ghost function ValueIn(r: Range): (v: real)
    requires Inhabited(r)
    ensures r.Has(v)
  {
    var v :| r.Has(v); v
  }

  ghost function KeyIn(box: Box): (x: Key)
    requires Solid(box)
    ensures InBox(box, x)
  {
    seq(|box|, i requires 0 <= i < |box| => ValueIn(box[i]))
  }

  lemma KeyWith(box: Box, c: nat, v: real) returns (x: Key)
    requires Solid(box) && c < |box| && box[c].Has(v)
    ensures InBox(box, x) && x[c] == v
  {
    x := KeyIn(box)[c := v];
  }

  // ---- atoms ----

  lemma ReadIsAtom(e: Element, high: bool, n: nat)
    requires e.Arity() == 0 && e.Valid(n)
    ensures Read(e, high).Arity() == 0 && Read(e, high).Valid(n)
  {
  }

  ghost predicate ReadTrue(e: Element, high: bool, x: Key)
    requires e.Arity() == 0 && e.Valid(|x|)
  {
    ReadIsAtom(e, high, |x|);
    Read(e, high).Truth(x)
  }

  predicate HasMask(e: Element, n: nat) {
    e.InRange? || e.NotInRange? || e.IsNull? || e.IsNotNull? ==> e.column < n
  }

  /** The mask admits an answer only if some reading of the atom gives it at some key of the box. */
  ghost predicate Precise(e: Element, box: Box)
    requires e.Arity() == 0 && e.Valid(|box|)
  {
    && (AtomMask(e, box).canBeTrue ==> exists x :: InBox(box, x) && ReadTrue(e, true, x))
    && (AtomMask(e, box).canBeFalse ==> exists x :: InBox(box, x) && !ReadTrue(e, false, x))
  }

  /** The lookup of a set answers exactly. */
  ghost predicate SharpLookup(index: SetIndex, box: Box) {
    && (index.checkInRange(box).canBeTrue ==> exists x :: InBox(box, x) && index.Contains(x))
    && (index.checkInRange(box).canBeFalse ==> exists x :: InBox(box, x) && !index.Contains(x))
  }

  /** Comparisons of a key column itself with some range of values, sets with an exact lookup, tests for NULL, constants and
      unknown atoms; relaxed or not. */
  ghost predicate Plain(e: Element, box: Box) {
    match e
    case InRange(_, range, chain, _, _) => chain == [] && Inhabited(range)
    case NotInRange(_, range, chain, _, _) => chain == [] && Inhabited(range)
    case InSet(index, _, _) => SharpLookup(index, box)
    case NotInSet(index, _, _) => SharpLookup(index, box)
    case IsNull(_, relaxed) => !relaxed
    case IsNotNull(_, relaxed) => !relaxed
    case _ => true
  }

  lemma RangePrecise(e: Element, box: Box)
    requires (e.InRange? || e.NotInRange?) && e.Valid(|box|) && Solid(box) && Plain(e, box)
    ensures Precise(e, box)
  {
    var keys := box[e.column];
    assert Inhabited(keys) && Canonical(keys);
    var any := KeyIn(box);
    assert InBox(box, any);
    if e.range.IntersectsRange(keys) {
      var v := CommonValue(e.range, keys);
      var x := KeyWith(box, e.column, v);
      assert InBox(box, x) && e.range.Has(ApplyChain([], x[e.column]));
    }
    if !e.range.ContainsRange(keys) {
      var v := OutsideValue(e.range, keys);
      var x := KeyWith(box, e.column, v);
      assert InBox(box, x) && !e.range.Has(ApplyChain([], x[e.column]));
    }
  }

  lemma PlainPrecise(e: Element, box: Box)
    requires e.Arity() == 0 && e.Valid(|box|) && Solid(box) && Plain(e, box)
    ensures Precise(e, box)
  {
    if e.InRange? || e.NotInRange? {
      RangePrecise(e, box);
    } else {
      var any := KeyIn(box);
      assert InBox(box, any);
      if e.IsNull? || e.IsNotNull? {
        assert Inhabited(box[e.column]) && Canonical(box[e.column]);
      } else if e.InSet? || e.NotInSet? {
        SetPrecise(e, box);
      }
    }
  }

  lemma SetPrecise(e: Element, box: Box)
    requires (e.InSet? || e.NotInSet?) && e.Valid(|box|) && Solid(box) && Plain(e, box)
    ensures Precise(e, box)
  {
    var any := KeyIn(box);
    assert InBox(box, any);
    var m := e.index.checkInRange(box);
    if m.canBeTrue {
      var x :| InBox(box, x) && e.index.Contains(x);
    }
    if m.canBeFalse {
      var x :| InBox(box, x) && !e.index.Contains(x);
    }
  }

  // ---- which columns a program looks at ----

  ghost function MappedColumns(index: SetIndex): set<nat> {
    set i | 0 <= i < |index.mapping| :: index.mapping[i].column
  }

  ghost function Depends(e: Element): set<nat> {
    match e
    case InRange(column, _, _, _, _) => {column}
    case NotInRange(column, _, _, _, _) => {column}
    case IsNull(column, _) => {column}
    case IsNotNull(column, _) => {column}
    case InSet(index, _, _) => MappedColumns(index)
    case NotInSet(index, _, _) => MappedColumns(index)
    case _ => {}
  }

  ghost function Columns(rpn: Program): set<nat> {
    set i, c | 0 <= i < |rpn| && c in Depends(rpn[i]) :: c
  }

  /** No key column occurs in two elements. */
  ghost predicate ReadOnce(rpn: Program) {
    forall i, j :: 0 <= i < j < |rpn| ==> Depends(rpn[i]) !! Depends(rpn[j])
  }

  ghost predicate Same(x: Key, y: Key, columns: set<nat>) {
    |x| == |y| && forall c :: c in columns && c < |x| ==> x[c] == y[c]
  }

  /** The truth of an atom does not depend on other columns. */
  ghost predicate LocalElement(e: Element, n: nat) {
    e.Valid(n) && (e.Arity() == 0 ==> forall x, y :: |x| == n && Same(x, y, Depends(e)) ==> (e.Truth(x) <==> e.Truth(y)))
  }

  ghost predicate Local(rpn: Program, n: nat) {
    forall i :: 0 <= i < |rpn| ==> LocalElement(rpn[i], n)
  }

  lemma ReadLocal(e: Element, high: bool, n: nat)
    requires e.Arity() == 0 && e.Valid(n)
    ensures LocalElement(Read(e, high), n) && Depends(Read(e, high)) == Depends(e)
  {
    var r := Read(e, high);
    ReadIsAtom(e, high, n);
    forall x, y | |x| == n && Same(x, y, Depends(r)) ensures r.Truth(x) <==> r.Truth(y) {
      if r.InSet? || r.NotInSet? {
        SetLocal(r.index, x, y);
      }
    }
  }

  lemma SetLocal(index: SetIndex, x: Key, y: Key)
    requires |x| == |y| && index.Valid(|x|) && Same(x, y, MappedColumns(index))
    ensures index.Contains(x) <==> index.Contains(y)
  {
    forall i | 0 <= i < |index.mapping| ensures x[index.mapping[i].column] == y[index.mapping[i].column] {
      assert index.mapping[i].column in MappedColumns(index);
    }
    forall k | 0 <= k < |index.rows| ensures index.RowMatches(index.rows[k], x) <==> index.RowMatches(index.rows[k], y) {
    }
  }

  lemma OperatorLocal(e: Element, n: nat)
    requires e.Arity() > 0
    ensures LocalElement(e, n) && Depends(e) == {}
  {
  }

  lemma StepLocal(e: Element, x: Key, y: Key, stack: seq<bool>)
    requires |x| == |y| && e.Arity() <= |stack| && LocalElement(e, |x|) && Same(x, y, Depends(e))
    ensures Step(e, x, stack) == Step(e, y, stack)
  {
  }

  lemma {:induction false} RunLocal(rpn: Program, x: Key, y: Key)
    requires Runs(rpn, 0) && ValidProgram(rpn, |x|) && Local(rpn, |x|) && Same(x, y, Columns(rpn))
    ensures Run(rpn, x, []) == Run(rpn, y, [])
    decreases |rpn|
  {
    hide Step, LocalElement, Element.Valid, Depends;
    if rpn != [] {
      var last := |rpn| - 1;
      assert rpn[..last] + [rpn[last]] == rpn;
      ColumnsConcat(rpn[..last], [rpn[last]]);
      ColumnsOne(rpn[last]);
      RunLocal(rpn[..last], x, y);
      StepLocal(rpn[last], x, y, Run(rpn[..last], x, []));
    }
  }

  lemma ColumnsConcat(a: Program, b: Program)
    ensures Columns(a + b) == Columns(a) + Columns(b)
  {
    hide Depends;
    var all := a + b;
    forall c ensures c in Columns(all) <==> c in Columns(a) || c in Columns(b) {
      if c in Columns(a) {
        var i :| 0 <= i < |a| && c in Depends(a[i]);
        assert all[i] == a[i];
      }
      if c in Columns(b) {
        var i :| 0 <= i < |b| && c in Depends(b[i]);
        assert all[|a| + i] == b[i];
      }
    }
  }

  lemma ColumnsOne(e: Element)
    ensures Columns([e]) == Depends(e)
  {
    hide Depends;
    assert [e][0] == e;
  }

  // ---- terms and the keys that decide them ----

  ghost predicate Sound(p: Program, n: nat) {
    WellFormed(p) && ValidProgram(p, n) && Local(p, n)
  }

  lemma HoldsLocal(p: Program, x: Key, y: Key)
    requires Sound(p, |x|) && Same(x, y, Columns(p))
    ensures Holds(p, x) <==> Holds(p, y)
  {
    RunLocal(p, x, y);
  }

  /** Two terms about different columns can be decided by one key. */
  lemma Mixed(p: Program, q: Program, x: Key, y: Key, box: Box) returns (z: Key)
    requires Sound(p, |box|) && Sound(q, |box|) && Columns(p) !! Columns(q)
    requires InBox(box, x) && InBox(box, y)
    ensures InBox(box, z) && (Holds(p, z) <==> Holds(p, x)) && (Holds(q, z) <==> Holds(q, y))
  {
    var columns := Columns(p);
    z := seq(|box|, c requires 0 <= c < |box| => if c in columns then x[c] else y[c]);
    hide Sound, Columns, Holds, Local, LocalElement;
    assert Same(z, x, Columns(p)) && Same(z, y, Columns(q));
    HoldsLocal(p, z, x);
    HoldsLocal(q, z, y);
  }

  lemma SoundNot(p: Program, n: nat)
    requires Sound(p, n)
    ensures Sound(p + [Not], n) && Columns(p + [Not]) == Columns(p)
  {
    var x: Key := seq(n, _ => 0.0);
    NotTerm(p, x);
    OperatorLocal(Not, n);
    ColumnsConcat(p, [Not]);
    ColumnsOne(Not);
    hide LocalElement, Columns;
  }

  lemma SoundBinary(p: Program, q: Program, e: Element, n: nat)
    requires Sound(p, n) && Sound(q, n) && (e.And? || e.Or?)
    ensures Sound(p + q + [e], n) && Columns(p + q + [e]) == Columns(p) + Columns(q)
  {
    var x: Key := seq(n, _ => 0.0);
    BinaryTerm(p, q, e, x);
    OperatorLocal(e, n);
    ColumnsConcat(p, q);
    ColumnsConcat(p + q, [e]);
    ColumnsOne(e);
    hide LocalElement, Columns;
  }

  lemma SoundRead(e: Element, high: bool, n: nat)
    requires e.Arity() == 0 && e.Valid(n)
    ensures Sound([Read(e, high)], n) && Columns([Read(e, high)]) == Depends(e)
  {
    ReadIsAtom(e, high, n);
    ReadLocal(e, high, n);
    AtomTerm(Read(e, high), seq(n, _ => 0.0));
    ColumnsOne(Read(e, high));
    hide LocalElement, Columns;
  }

  ghost predicate CanHold(p: Program, truth: bool, box: Box)
    requires Sound(p, |box|)
  {
    exists x :: InBox(box, x) && Holds(p, x) == truth
  }

  /** The mask of a term admits an answer only if a reading of the term gives it at some key of the box. */
  ghost predicate Witnessed(f: Fork, m: BoolMask, box: Box) {
    && Sound(f.low, |box|) && Sound(f.high, |box|)
    && Columns(f.low) == Columns(f.term) && Columns(f.high) == Columns(f.term)
    && (m.canBeTrue ==> CanHold(f.high, true, box))
    && (m.canBeFalse ==> CanHold(f.low, false, box))
  }

  lemma NegatedCan(p: Program, truth: bool, box: Box)
    requires Sound(p, |box|) && CanHold(p, truth, box)
    ensures Sound(p + [Not], |box|) && CanHold(p + [Not], !truth, box)
  {
    hide Sound, Holds;
    SoundNot(p, |box|);
    SoundFacts(p, |box|);
    var x :| InBox(box, x) && Holds(p, x) == truth;
    NotTerm(p, x);
  }

  lemma SoundFacts(p: Program, n: nat)
    requires Sound(p, n)
    ensures WellFormed(p) && ValidProgram(p, n)
  {
  }

  lemma WitnessedNot(f: Fork, m: BoolMask, box: Box)
    requires Witnessed(f, m, box)
    ensures Witnessed(Negated(f, Not), m.Not(), box)
  {
    hide Sound, CanHold;
    SoundNot(f.low, |box|);
    SoundNot(f.high, |box|);
    ColumnsConcat(f.term, [Not]);
    ColumnsOne(Not);
    if m.canBeTrue {
      NegatedCan(f.high, true, box);
    }
    if m.canBeFalse {
      NegatedCan(f.low, false, box);
    }
  }

  /** One side suffices: a false operand of AND, a true one of OR. */
  lemma OneSideCan(p: Program, q: Program, e: Element, box: Box)
    requires Sound(p, |box|) && Sound(q, |box|) && (e.And? || e.Or?)
    requires CanHold(p, e.Or?, box) || CanHold(q, e.Or?, box)
    ensures Sound(p + q + [e], |box|) && CanHold(p + q + [e], e.Or?, box)
  {
    hide Sound, Holds;
    SoundBinary(p, q, e, |box|);
    SoundFacts(p, |box|);
    SoundFacts(q, |box|);
    if CanHold(p, e.Or?, box) {
      var x :| InBox(box, x) && Holds(p, x) == e.Or?;
      BinaryTerm(p, q, e, x);
    } else {
      var x :| InBox(box, x) && Holds(q, x) == e.Or?;
      BinaryTerm(p, q, e, x);
    }
  }

  /** Both sides at once, because they look at different columns. */
  lemma BothSidesCan(p: Program, q: Program, e: Element, box: Box)
    requires Sound(p, |box|) && Sound(q, |box|) && (e.And? || e.Or?) && Columns(p) !! Columns(q)
    requires CanHold(p, e.And?, box) && CanHold(q, e.And?, box)
    ensures Sound(p + q + [e], |box|) && CanHold(p + q + [e], e.And?, box)
  {
    hide Sound, Holds, Columns;
    SoundBinary(p, q, e, |box|);
    SoundFacts(p, |box|);
    SoundFacts(q, |box|);
    var x :| InBox(box, x) && Holds(p, x) == e.And?;
    var y :| InBox(box, y) && Holds(q, y) == e.And?;
    var z := Mixed(p, q, x, y, box);
    BinaryTerm(p, q, e, z);
  }

  lemma WitnessedJoined(a: Fork, b: Fork, e: Element, m: BoolMask, n: BoolMask, box: Box)
    requires Witnessed(a, m, box) && Witnessed(b, n, box) && (e.And? || e.Or?) && Columns(a.term) !! Columns(b.term)
    ensures Witnessed(Joined(a, b, e), if e.And? then n.And(m) else n.Or(m), box)
  {
    hide Sound, CanHold, Columns;
    SoundBinary(a.low, b.low, e, |box|);
    SoundBinary(a.high, b.high, e, |box|);
    ColumnsConcat(a.term, b.term);
    ColumnsConcat(a.term + b.term, [e]);
    ColumnsOne(e);
    OperatorLocal(e, 0);
    var both := if e.And? then n.And(m) else n.Or(m);
    if both.canBeTrue {
      if e.And? {
        BothSidesCan(a.high, b.high, e, box);
      } else {
        OneSideCan(a.high, b.high, e, box);
      }
    }
    if both.canBeFalse {
      if e.And? {
        OneSideCan(a.low, b.low, e, box);
      } else {
        BothSidesCan(a.low, b.low, e, box);
      }
    }
  }

  lemma WitnessedAtom(e: Element, box: Box)
    requires e.Arity() == 0 && e.Valid(|box|) && Precise(e, box)
    ensures Witnessed(Fork([e], [Read(e, false)], [Read(e, true)]), AtomMask(e, box), box)
  {
    SoundRead(e, false, |box|);
    SoundRead(e, true, |box|);
    ColumnsOne(e);
    hide Sound, Columns, AtomMask;
    SoundFacts([Read(e, false)], |box|);
    SoundFacts([Read(e, true)], |box|);
    if AtomMask(e, box).canBeTrue {
      var x :| InBox(box, x) && ReadTrue(e, true, x);
      AtomTerm(Read(e, true), x);
    }
    if AtomMask(e, box).canBeFalse {
      var x :| InBox(box, x) && !ReadTrue(e, false, x);
      AtomTerm(Read(e, false), x);
    }
  }

  // ---- the stack ----

  ghost predicate AllWitnessed(stack: seq<Fork>, masks: seq<BoolMask>, box: Box) {
    |stack| == |masks| && forall i :: 0 <= i < |stack| ==> Witnessed(stack[i], masks[i], box)
  }

  lemma {:induction false} WitnessedFacts(stack: seq<Fork>, masks: seq<BoolMask>, box: Box)
    requires AllWitnessed(stack, masks, box)
    ensures |stack| == |masks| && forall i :: 0 <= i < |stack| ==> Witnessed(stack[i], masks[i], box)
  {
  }

  lemma {:induction false} ReplaceWitnessed(stack: seq<Fork>, masks: seq<BoolMask>, box: Box, keep: nat, f: Fork, m: BoolMask)
    requires AllWitnessed(stack, masks, box) && keep <= |stack| && Witnessed(f, m, box)
    ensures AllWitnessed(stack[..keep] + [f], masks[..keep] + [m], box)
  {
    hide Witnessed;
  }

  lemma BehindDisjoint(r: Program, a: Program, b: Program)
    requires ReadOnce(r + a + b)
    ensures Columns(a) !! Columns(b)
  {
    hide Depends;
    var all := r + a + b;
    forall i, j | 0 <= i < |a| && 0 <= j < |b| ensures Depends(a[i]) !! Depends(b[j]) {
      assert all[|r| + i] == a[i] && all[|r| + |a| + j] == b[j];
    }
  }

  lemma {:induction false} TermsTwo(stack: seq<Fork>)
    requires |stack| >= 2
    ensures Terms(stack) == Terms(stack[..|stack| - 2]) + stack[|stack| - 2].term + stack[|stack| - 1].term
  {
    hide Terms;
    var n := |stack|;
    var rest := stack[..n - 2];
    LastTwo(stack);
    TermsSnoc(rest, stack[n - 2]);
    TermsSnoc(rest + [stack[n - 2]], stack[n - 1]);
  }

  /** The two topmost terms look at different columns. */
  lemma {:induction false} TopDisjoint(stack: seq<Fork>)
    requires |stack| >= 2 && ReadOnce(Terms(stack))
    ensures Columns(stack[|stack| - 2].term) !! Columns(stack[|stack| - 1].term)
  {
    hide Terms, Columns, ReadOnce;
    TermsTwo(stack);
    BehindDisjoint(Terms(stack[..|stack| - 2]), stack[|stack| - 2].term, stack[|stack| - 1].term);
  }

  lemma {:induction false} WitnessedAtomStep(e: Element, stack: seq<Fork>, masks: seq<BoolMask>, box: Box)
    requires e.Arity() == 0 && e.Valid(|box|) && ColumnsBelow([e], |box|) && AllWitnessed(stack, masks, box) && Precise(e, box)
    ensures AllWitnessed(ForkStep(e, stack), MaskStep(e, box, masks), box)
  {
    WitnessedAtom(e, box);
    hide Witnessed, AllWitnessed, Element.Valid, Precise, AtomMask, Read;
    WitnessedFacts(stack, masks, box);
    ReplaceWitnessed(stack, masks, box, |stack|, Fork([e], [Read(e, false)], [Read(e, true)]), AtomMask(e, box));
    assert stack[..|stack|] == stack && masks[..|masks|] == masks;
  }

  lemma {:induction false} WitnessedNotStep(stack: seq<Fork>, masks: seq<BoolMask>, box: Box)
    requires |stack| == |masks| >= 1 && ColumnsBelow([Not], |box|) && AllWitnessed(stack, masks, box)
    ensures AllWitnessed(ForkStep(Not, stack), MaskStep(Not, box, masks), box)
  {
    hide Witnessed, AllWitnessed, Negated, BoolMask.Not;
    WitnessedFacts(stack, masks, box);
    var n := |stack|;
    WitnessedNot(stack[n - 1], masks[n - 1], box);
    ReplaceWitnessed(stack, masks, box, n - 1, Negated(stack[n - 1], Not), masks[n - 1].Not());
  }

  lemma {:induction false} WitnessedBinaryStep(e: Element, stack: seq<Fork>, masks: seq<BoolMask>, box: Box)
    requires (e.And? || e.Or?) && |stack| == |masks| >= 2 && ColumnsBelow([e], |box|) && AllWitnessed(stack, masks, box)
    requires ReadOnce(Terms(stack))
    ensures AllWitnessed(ForkStep(e, stack), MaskStep(e, box, masks), box)
  {
    TopDisjoint(stack);
    hide Witnessed, AllWitnessed, ReadOnce, Joined, Columns, BoolMask.And, BoolMask.Or;
    WitnessedFacts(stack, masks, box);
    var n := |stack|;
    var m := if e.And? then masks[n - 1].And(masks[n - 2]) else masks[n - 1].Or(masks[n - 2]);
    WitnessedJoined(stack[n - 2], stack[n - 1], e, masks[n - 2], masks[n - 1], box);
    ReplaceWitnessed(stack, masks, box, n - 2, Joined(stack[n - 2], stack[n - 1], e), m);
  }

  lemma {:induction false} WitnessedStep(e: Element, stack: seq<Fork>, masks: seq<BoolMask>, box: Box)
    requires e.Arity() <= |stack| && e.Valid(|box|) && ColumnsBelow([e], |box|) && AllWitnessed(stack, masks, box)
    requires ReadOnce(Terms(stack)) && (e.Arity() == 0 ==> Precise(e, box))
    ensures |stack| == |masks| && AllWitnessed(ForkStep(e, stack), MaskStep(e, box, masks), box)
  {
    WitnessedFacts(stack, masks, box);
    hide Witnessed, AllWitnessed, Element.Valid, Precise, ReadOnce, ForkStep, MaskStep;
    if e.Arity() == 0 {
      WitnessedAtomStep(e, stack, masks, box);
    } else if e.Not? {
      WitnessedNotStep(stack, masks, box);
    } else {
      WitnessedBinaryStep(e, stack, masks, box);
    }
  }

  ghost predicate AllPrecise(rpn: Program, box: Box) {
    forall i :: 0 <= i < |rpn| ==> rpn[i].Valid(|box|) && (rpn[i].Arity() == 0 ==> Precise(rpn[i], box))
  }

  lemma {:induction false} ForksWitnessed(rpn: Program, box: Box)
    requires Runs(rpn, 0) && ColumnsBelow(rpn, |box|) && ReadOnce(rpn) && AllPrecise(rpn, box)
    ensures AllWitnessed(ForkRun(rpn), MaskRun(rpn, box), box)
    decreases |rpn|
  {
    hide AllWitnessed, ForkStep, MaskStep, AllPrecise, ReadOnce, Terms;
    if rpn == [] {
      NothingWitnessed(box);
    } else {
      var last := |rpn| - 1;
      PrefixFacts(rpn, box);
      ForksWitnessed(rpn[..last], box);
      ForksAlike(rpn[..last]);
      WitnessedStep(rpn[last], ForkRun(rpn[..last]), MaskRun(rpn[..last], box), box);
    }
  }

  lemma PrefixFacts(rpn: Program, box: Box)
    requires rpn != [] && ColumnsBelow(rpn, |box|) && ReadOnce(rpn) && AllPrecise(rpn, box)
    ensures
      var init, e := rpn[..|rpn| - 1], rpn[|rpn| - 1];
      && ColumnsBelow(init, |box|) && ReadOnce(init) && AllPrecise(init, box)
      && ColumnsBelow([e], |box|) && e.Valid(|box|) && (e.Arity() == 0 ==> Precise(e, box))
  {
    hide Depends, Precise, Element.Valid;
    assert [rpn[|rpn| - 1]][0] == rpn[|rpn| - 1];
  }

  lemma NothingWitnessed(box: Box)
    ensures AllWitnessed([], [], box)
  {
  }

  /** One box: the mask admits an answer only if a reading of the condition gives it at some key of the box. */
  lemma BoxMaskPrecise(rpn: Program, box: Box)
    requires WellFormed(rpn) && ValidProgram(rpn, |box|) && ColumnsBelow(rpn, |box|) && ReadOnce(rpn) && AllPrecise(rpn, box)
    ensures BoxMask(rpn, box).canBeTrue ==> exists x :: InBox(box, x) && ReadingHolds(rpn, true, x)
    ensures BoxMask(rpn, box).canBeFalse ==> exists x :: InBox(box, x) && !ReadingHolds(rpn, false, x)
  {
    ForksWitnessed(rpn, box);
    var f, m := ForkRun(rpn)[0], MaskRun(rpn, box)[0];
    assert Witnessed(f, m, box);
    hide Witnessed, Holds, ForkRun, Sound;
    WitnessedUse(f, m, box);
    if m.canBeTrue {
      var x :| InBox(box, x) && Holds(f.high, x);
      assert ReadingHolds(rpn, true, x);
    }
    if m.canBeFalse {
      var x :| InBox(box, x) && !Holds(f.low, x);
      assert !ReadingHolds(rpn, false, x);
    }
  }

  lemma WitnessedUse(f: Fork, m: BoolMask, box: Box)
    requires Witnessed(f, m, box)
    ensures WellFormed(f.low) && ValidProgram(f.low, |box|) && WellFormed(f.high) && ValidProgram(f.high, |box|)
    ensures m.canBeTrue ==> exists x :: InBox(box, x) && Holds(f.high, x)
    ensures m.canBeFalse ==> exists x :: InBox(box, x) && !Holds(f.low, x)
  {
  }

  // ---- intervals ----

  predicate Finite(keys: seq<Endpoint>) {
    forall i :: 0 <= i < |keys| ==> keys[i].Fin?
  }

  lemma SolidWith(box: Box, p: nat, r: Range)
    requires p < |box| && Solid(box) && Inhabited(r) && Canonical(r)
    ensures Solid(box[p := r])
  {
  }

  lemma SidesInhabited(l: Endpoint, r: Endpoint, lb: bool, rb: bool, included: bool)
    requires (lb || rb) && l.Fin? && r.Fin? && (lb && rb ==> Less(l, r))
    ensures Inhabited(Side(l, r, lb, rb, included)) && Canonical(Side(l, r, lb, rb, included))
  {
    var side := Side(l, r, lb, rb, included);
    if lb && rb {
      assert side.Has((l.value + r.value) / 2.0);
    } else if lb {
      assert side.Has(l.value + 1.0);
    } else {
      assert side.Has(r.value - 1.0);
    }
  }

  lemma PointInhabited(e: Endpoint)
    requires e.Fin?
    ensures Inhabited(Point(e)) && Canonical(Point(e))
  {
    assert Point(e).Has(e.value);
  }

  lemma UniverseInhabited()
    ensures Inhabited(UNIVERSE) && Canonical(UNIVERSE)
  {
    assert UNIVERSE.Has(0.0);
  }

  ghost predicate AllSolid(boxes: seq<Box>, n: nat) {
    forall i :: 0 <= i < |boxes| ==> |boxes[i]| == n && Solid(boxes[i])
  }

  /** Between finite ends every box holds a key. */
  lemma {:induction false} BoxesSolid(
    left: seq<Endpoint>, right: seq<Endpoint>, lb: bool, rb: bool, box: Box, p: nat)
    requires |left| == |right| == |box| && p <= |box| && (lb || rb)
    requires Finite(left) && Finite(right) && Solid(box) && (lb && rb ==> Ordered(left, right, p))
    ensures AllSolid(Boxes(left, right, lb, rb, box, p), |box|)
    decreases |box| - p
  {
    hide Solid, Inhabited, Canonical;
    if p < |box| {
      PointInhabited(left[p]);
      PointInhabited(right[p]);
      SolidWith(box, p, Point(left[p]));
      SolidWith(box, p, Point(right[p]));
      if lb && rb && left[p] == right[p] {
        BoxesSolid(left, right, true, true, box[p := Point(left[p])], p + 1);
      } else {
        SidesInhabited(left[p], right[p], lb, rb, true);
        SidesInhabited(left[p], right[p], lb, rb, false);
        SolidWith(box, p, Side(left[p], right[p], lb, rb, true));
        if p + 1 < |box| {
          MiddleSolid(left, right, lb, rb, box, p);
          if lb {
            BoxesSolid(left, right, true, false, box[p := Point(left[p])], p + 1);
          }
          if rb {
            BoxesSolid(left, right, false, true, box[p := Point(right[p])], p + 1);
          }
        }
      }
    }
  }

  lemma MiddleSolid(left: seq<Endpoint>, right: seq<Endpoint>, lb: bool, rb: bool, box: Box, p: nat)
    requires |left| == |right| == |box| && p < |box| && (lb || rb) && Solid(box)
    requires var side := Side(left[p], right[p], lb, rb, false); Inhabited(side) && Canonical(side)
    ensures Solid(Middle(left, right, lb, rb, box, p))
  {
    hide Inhabited, Canonical;
    UniverseInhabited();
  }

  lemma {:induction false} CombinedFrom(callback: Box -> BoolMask, boxes: seq<Box>)
    ensures CombineAll(callback, boxes).canBeTrue ==> exists i :: 0 <= i < |boxes| && callback(boxes[i]).canBeTrue
    ensures CombineAll(callback, boxes).canBeFalse ==> exists i :: 0 <= i < |boxes| && callback(boxes[i]).canBeFalse
  {
    if boxes != [] {
      CombinedFrom(callback, boxes[1..]);
      if CombineAll(callback, boxes[1..]).canBeTrue {
        var i :| 0 <= i < |boxes[1..]| && callback(boxes[1..][i]).canBeTrue;
        assert boxes[i + 1] == boxes[1..][i];
      }
      if CombineAll(callback, boxes[1..]).canBeFalse {
        var i :| 0 <= i < |boxes[1..]| && callback(boxes[1..][i]).canBeFalse;
        assert boxes[i + 1] == boxes[1..][i];
      }
    }
  }

  lemma {:induction false} InSomeBox(boxes: seq<Box>, i: nat, x: Key)
    requires i < |boxes| && InBox(boxes[i], x)
    ensures Count(boxes, x) > 0
  {
    if i > 0 {
      InSomeBox(boxes[1..], i - 1, x);
    }
  }

  /** Programs that differ only in what no method evaluates have the same masks. */
  lemma {:induction false} AlikeMasks(rpn: Program, other: Program, box: Box)
    requires Runs(rpn, 0) && ColumnsBelow(rpn, |box|) && Alike(rpn, other)
    ensures Runs(other, 0) && ColumnsBelow(other, |box|) && MaskRun(other, box) == MaskRun(rpn, box)
    decreases |rpn|
  {
    AlikeHeight(rpn, other, 0);
    AlikeColumns(rpn, other, |box|);
    hide AlikeElement, MaskStep, ColumnsBelow;
    if rpn != [] {
      var last := |rpn| - 1;
      LastColumns(rpn, |box|);
      LastColumns(other, |box|);
      AlikeMasks(rpn[..last], other[..last], box);
      AlikeKeeps(rpn[last], other[last], 0);
      AlikeMask(rpn[last], other[last], box, MaskRun(rpn[..last], box));
    }
  }

  lemma AlikeColumns(rpn: Program, other: Program, n: nat)
    requires ColumnsBelow(rpn, n) && Alike(rpn, other)
    ensures ColumnsBelow(other, n)
  {
    forall i | 0 <= i < |other| ensures AlikeElement(rpn[i], other[i]) {
    }
  }

  lemma LastColumns(rpn: Program, n: nat)
    requires rpn != [] && ColumnsBelow(rpn, n)
    ensures ColumnsBelow(rpn[..|rpn| - 1], n) && ColumnsBelow([rpn[|rpn| - 1]], n)
  {
    assert [rpn[|rpn| - 1]][0] == rpn[|rpn| - 1];
  }

  lemma AlikeMask(e: Element, f: Element, box: Box, masks: seq<BoolMask>)
    requires AlikeElement(e, f) && e.Arity() <= |masks| && ColumnsBelow([e], |box|) && ColumnsBelow([f], |box|)
    requires f.Arity() == e.Arity()
    ensures MaskStep(f, box, masks) == MaskStep(e, box, masks)
  {
    assert [e][0] == e && [f][0] == f;
  }

  /** The readings of a condition get the masks of the condition. */
  lemma ReadingSound(rpn: Program, high: bool, box: Box, x: Key)
    requires WellFormed(rpn) && ValidProgram(rpn, |x|) && InBox(box, x)
    ensures ColumnsBelow(rpn, |x|) && BoxMask(rpn, box).Admits(ReadingHolds(rpn, high, x))
  {
    ReadingIsAlike(rpn, high, |x|);
    BoxMaskSound(rpn, box, x);
    BoxMaskSound(Reading(rpn, high), box, x);
    AlikeMasks(rpn, Reading(rpn, high), box);
  }

  /** Every atom is precise on every box of the interval. */
  ghost predicate PreciseThroughout(leftKeys: seq<Endpoint>, rightKeys: seq<Endpoint>, rpn: Program)
    requires |leftKeys| == |rightKeys|
  {
    var boxes := Boxes(leftKeys, rightKeys, true, true, UniverseBox(|leftKeys|), 0);
    forall k :: 0 <= k < |boxes| ==> |boxes[k]| == |leftKeys| && AllPrecise(rpn, boxes[k])
  }

  /**
   * Where each key column occurs once and every atom is precise, the answer for an interval is exact for what the code can
   * know: it can be true (false) if and only if the most (least) favourable reading is true (false) at some key of it.
   */
  lemma RangeAnswerExact(leftKeys: seq<Endpoint>, rightKeys: seq<Endpoint>, rpn: Program)
    requires |leftKeys| == |rightKeys| && WellFormed(rpn) && ValidProgram(rpn, |leftKeys|) && ColumnsBelow(rpn, |leftKeys|)
    requires Ordered(leftKeys, rightKeys, 0) && ReadOnce(rpn) && PreciseThroughout(leftKeys, rightKeys, rpn)
    ensures RangeAnswer(leftKeys, rightKeys, rpn).canBeTrue
       <==> exists x :: InInterval(leftKeys, rightKeys, x) && ReadingHolds(rpn, true, x)
    ensures RangeAnswer(leftKeys, rightKeys, rpn).canBeFalse
       <==> exists x :: InInterval(leftKeys, rightKeys, x) && !ReadingHolds(rpn, false, x)
  {
    hide WellFormed, ValidProgram, ColumnsBelow, ReadOnce, AllPrecise, BoxMask, ReadingHolds, Boxes, AtLeast, AtMost, InBox, Ordered, CombineAll;
    var n := |leftKeys|;
    var boxes := Boxes(leftKeys, rightKeys, true, true, UniverseBox(n), 0);
    var callback := BoxCallback(rpn, n);
    CombinedFrom(callback, boxes);
    forall k | 0 <= k < |boxes|
      ensures BoxMask(rpn, boxes[k]).canBeTrue ==> exists x :: InInterval(leftKeys, rightKeys, x) && ReadingHolds(rpn, true, x)
      ensures BoxMask(rpn, boxes[k]).canBeFalse ==> exists x :: InInterval(leftKeys, rightKeys, x) && !ReadingHolds(rpn, false, x)
    {
      BoxMaskPrecise(rpn, boxes[k]);
      forall x | InBox(boxes[k], x) ensures InInterval(leftKeys, rightKeys, x) {
        BoxInside(leftKeys, rightKeys, boxes, k, x);
      }
    }
    forall x | InInterval(leftKeys, rightKeys, x)
      ensures |x| == n
      ensures ReadingHolds(rpn, true, x) ==> CombineAll(callback, boxes).canBeTrue
      ensures !ReadingHolds(rpn, false, x) ==> CombineAll(callback, boxes).canBeFalse
    {
      IntervalAdmits(leftKeys, rightKeys, rpn, true, x);
      IntervalAdmits(leftKeys, rightKeys, rpn, false, x);
    }
  }

  lemma BoxInside(leftKeys: seq<Endpoint>, rightKeys: seq<Endpoint>, boxes: seq<Box>, k: nat, x: Key)
    requires |leftKeys| == |rightKeys| && Ordered(leftKeys, rightKeys, 0)
    requires boxes == Boxes(leftKeys, rightKeys, true, true, UniverseBox(|leftKeys|), 0)
    requires k < |boxes| && |boxes[k]| == |leftKeys| && InBox(boxes[k], x)
    ensures InInterval(leftKeys, rightKeys, x)
  {
    InSomeBox(boxes, k, x);
    BoxesPartitionInterval(leftKeys, rightKeys, x);
  }

  lemma IntervalAdmits(leftKeys: seq<Endpoint>, rightKeys: seq<Endpoint>, rpn: Program, high: bool, x: Key)
    requires |leftKeys| == |rightKeys| && WellFormed(rpn) && ValidProgram(rpn, |leftKeys|) && ColumnsBelow(rpn, |leftKeys|)
    requires InInterval(leftKeys, rightKeys, x)
    ensures |x| == |leftKeys| && RangeAnswer(leftKeys, rightKeys, rpn).Admits(ReadingHolds(rpn, high, x))
  {
    hide Boxes;
    var n := |leftKeys|;
    var boxes := Boxes(leftKeys, rightKeys, true, true, UniverseBox(n), 0);
    IntervalOrdered(leftKeys, rightKeys, x, 0);
    BoxesPartitionInterval(leftKeys, rightKeys, x);
    CombinedReading(rpn, high, BoxCallback(rpn, n), boxes, x);
  }

  lemma {:induction false} CombinedReading(rpn: Program, high: bool, callback: Box -> BoolMask, boxes: seq<Box>, x: Key)
    requires WellFormed(rpn) && ValidProgram(rpn, |x|) && ColumnsBelow(rpn, |x|)
    requires forall box :: |box| == |x| ==> callback(box) == BoxMask(rpn, box)
    requires Count(boxes, x) > 0
    ensures CombineAll(callback, boxes).Admits(ReadingHolds(rpn, high, x))
  {
    hide BoxMask, ReadingHolds;
    if InBox(boxes[0], x) {
      ReadingSound(rpn, high, boxes[0], x);
    } else {
      CombinedReading(rpn, high, callback, boxes[1..], x);
    }
  }

  /** Atoms that are precise on every box that holds keys. */
  ghost predicate PlainProgram(rpn: Program, n: nat) {
    forall i, box :: 0 <= i < |rpn| && |box| == n && Solid(box) ==> Plain(rpn[i], box)
  }

  /** Between finite ends plain atoms are precise throughout. */
  lemma PlainIsPrecise(leftKeys: seq<Endpoint>, rightKeys: seq<Endpoint>, rpn: Program)
    requires |leftKeys| == |rightKeys| && ValidProgram(rpn, |leftKeys|) && PlainProgram(rpn, |leftKeys|)
    requires Finite(leftKeys) && Finite(rightKeys) && Ordered(leftKeys, rightKeys, 0)
    ensures PreciseThroughout(leftKeys, rightKeys, rpn)
  {
    hide Plain, Precise, Solid, Element.Valid, Boxes, Ordered;
    var n := |leftKeys|;
    var boxes := Boxes(leftKeys, rightKeys, true, true, UniverseBox(n), 0);
    UniverseSolid(n);
    BoxesSolid(leftKeys, rightKeys, true, true, UniverseBox(n), 0);
    forall k, i | 0 <= k < |boxes| && 0 <= i < |rpn| && rpn[i].Arity() == 0
      ensures |boxes[k]| == n && rpn[i].Valid(n) && Precise(rpn[i], boxes[k])
    {
      PlainPrecise(rpn[i], boxes[k]);
    }
  }

  lemma UniverseSolid(n: nat)
    ensures Solid(UniverseBox(n))
  {
    hide Inhabited, Canonical;
    UniverseInhabited();
  }

  /** With finite ends and plain atoms on different columns, the answer for an interval is exact. */
  ghost predicate Exact(leftKeys: seq<Endpoint>, rightKeys: seq<Endpoint>, rpn: Program) {
    && |leftKeys| == |rightKeys| && Finite(leftKeys) && Finite(rightKeys) && Ordered(leftKeys, rightKeys, 0)
    && ReadOnce(rpn) && PlainProgram(rpn, |leftKeys|)
  }

  lemma PlainAnswerExact(leftKeys: seq<Endpoint>, rightKeys: seq<Endpoint>, rpn: Program)
    requires Exact(leftKeys, rightKeys, rpn) && WellFormed(rpn) && ValidProgram(rpn, |leftKeys|) && ColumnsBelow(rpn, |leftKeys|)
    ensures RangeAnswer(leftKeys, rightKeys, rpn).canBeTrue
       <==> exists x :: InInterval(leftKeys, rightKeys, x) && ReadingHolds(rpn, true, x)
    ensures RangeAnswer(leftKeys, rightKeys, rpn).canBeFalse
       <==> exists x :: InInterval(leftKeys, rightKeys, x) && !ReadingHolds(rpn, false, x)
  {
    PlainIsPrecise(leftKeys, rightKeys, rpn);
    RangeAnswerExact(leftKeys, rightKeys, rpn);
  }

  // ---- columns under functions ----

  /** A range is mapped whenever all functions are monotonic. */
  lemma {:induction false} ChainApplies(r: Range, chain: Chain)
    requires forall i, a, b :: 0 <= i < |chain| ==> chain[i].monotonicity(a, b).isMonotonic
    ensures ApplyChainToRange(r, chain).Some?
    decreases |chain|
  {
    if chain != [] {
      ChainApplies(ApplyFunctionToRange(chain[0], r, chain[0].monotonicity(r.left, r.right).isPositive), chain[1..]);
    }
  }

  /** The image of a range between two values lies between the images of these values. */
  lemma {:induction false} ChainTight(r: Range, chain: Chain)
    requires r.left.Fin? && r.right.Fin? && ApplyChainToRange(r, chain).Some?
    ensures
      var q, a, b := ApplyChainToRange(r, chain).value, ApplyChain(chain, r.left.value), ApplyChain(chain, r.right.value);
      && ((q.left == Fin(a) && q.right == Fin(b)) || (q.left == Fin(b) && q.right == Fin(a)))
      && (chain != [] ==> q.leftIncluded && q.rightIncluded)
    decreases |chain|
  {
    if chain != [] {
      ChainTight(ApplyFunctionToRange(chain[0], r, chain[0].monotonicity(r.left, r.right).isPositive), chain[1..]);
    }
  }

  /** A comparison with one bound, over a closed range of keys that the functions map. */
  predicate Comparison(e: Element, box: Box) {
    && (e.InRange? || e.NotInRange?) && e.column < |box|
    && (e.range.left.Fin? || e.range.left.NegInf?) && (e.range.right.Fin? || e.range.right.PosInf?)
    && (e.range.left.NegInf? || e.range.right.PosInf?)
    && var keys := box[e.column];
       && keys.left.Fin? && keys.right.Fin? && keys.left.value <= keys.right.value && keys.leftIncluded && keys.rightIncluded
       && ApplyChainToRange(keys, e.chain).Some?
  }

  lemma ComparisonPrecise(e: Element, box: Box)
    requires e.Valid(|box|) && Comparison(e, box) && Solid(box)
    ensures Precise(e, box)
  {
    var keys := box[e.column];
    var q := ApplyChainToRange(keys, e.chain).value;
    var l, r := keys.left.value, keys.right.value;
    ChainTight(keys, e.chain);
    ChainRangeCoversImage(keys, e.chain, l);
    ChainRangeCoversImage(keys, e.chain, r);
    var x := KeyWith(box, e.column, l);
    var y := KeyWith(box, e.column, r);
    hide ApplyChain, ApplyChainToRange, HonestChain;
    assert InBox(box, x) && InBox(box, y);
    var a, b := ApplyChain(e.chain, l), ApplyChain(e.chain, r);
    assert e.range.IntersectsRange(q) ==> e.range.Has(a) || e.range.Has(b);
    assert !e.range.ContainsRange(q) ==> !e.range.Has(a) || !e.range.Has(b);
  }

  /** With one key column a chain of functions does not make the answer for a comparison less exact. */
  lemma OneColumnPrecise(leftKeys: seq<Endpoint>, rightKeys: seq<Endpoint>, rpn: Program)
    requires |leftKeys| == |rightKeys| == 1 && Finite(leftKeys) && Finite(rightKeys) && Ordered(leftKeys, rightKeys, 0)
    requires ValidProgram(rpn, 1)
    requires
      var box := [Range(leftKeys[0], true, rightKeys[0], true)];
      forall i :: 0 <= i < |rpn| ==> Plain(rpn[i], box) || Comparison(rpn[i], box)
    ensures PreciseThroughout(leftKeys, rightKeys, rpn)
  {
    var box := [Range(leftKeys[0], true, rightKeys[0], true)];
    var boxes := Boxes(leftKeys, rightKeys, true, true, UniverseBox(1), 0);
    OneBox(leftKeys, rightKeys);
    assert box[0].Has(leftKeys[0].value);
    assert Solid(box);
    hide Plain, Comparison, Precise, Boxes, Ordered, Element.Valid;
    forall i | 0 <= i < |rpn| && rpn[i].Arity() == 0 ensures Precise(rpn[i], box) {
      if Plain(rpn[i], box) {
        PlainPrecise(rpn[i], box);
      } else {
        ComparisonPrecise(rpn[i], box);
      }
    }
  }

  lemma OneBox(leftKeys: seq<Endpoint>, rightKeys: seq<Endpoint>)
    requires |leftKeys| == |rightKeys| == 1
    ensures Boxes(leftKeys, rightKeys, true, true, UniverseBox(1), 0) == [[Range(leftKeys[0], true, rightKeys[0], true)]]
  {
    var side := Range(leftKeys[0], true, rightKeys[0], true);
    assert UniverseBox(1)[0 := side] == [side];
  }

  // ---- one column in two atoms ----

  function InRangeOf(left: real, right: real): Element {
    InRange(0, Range(Fin(left), true, Fin(right), true), [], false, _ => true)
  }

  lemma OperatorValid(n: nat)
    ensures And.Valid(n)
  {
  }

  /** Two atoms and AND. */
  lemma TwoAtoms(a: Element, b: Element, box: Box, x: Key)
    requires a.Arity() == 0 && b.Arity() == 0 && |box| == |x| && a.Valid(|x|) && b.Valid(|x|)
    requires ColumnsBelow([a], |x|) && ColumnsBelow([b], |x|)
    ensures
      var rpn := [a, b, And];
      && WellFormed(rpn) && ValidProgram(rpn, |x|) && ColumnsBelow(rpn, |x|)
      && BoxMask(rpn, box) == AtomMask(b, box).And(AtomMask(a, box))
      && (Holds(rpn, x) <==> b.Truth(x) && a.Truth(x))
  {
    hide AtomMask, Element.Truth, Element.Valid;
    var rpn := [a, b, And];
    assert [a][0] == a && [b][0] == b;
    OperatorValid(|x|);
    assert rpn[..2] == [a, b] && [a, b][..1] == [a] && [a][..0] == [];
    assert Height([], 0) == 0 && Height([a], 0) == 1 && Height([a, b], 0) == 2 && Height(rpn, 0) == 1;
    assert MaskRun([], box) == [] && MaskRun([a], box) == [AtomMask(a, box)];
    assert MaskRun([a, b], box) == [AtomMask(a, box), AtomMask(b, box)];
    assert Run([], x, []) == [] && Run([a], x, []) == [a.Truth(x)];
    assert Run([a, b], x, []) == [a.Truth(x), b.Truth(x)];
  }

  lemma OneAnswer(leftKeys: seq<Endpoint>, rightKeys: seq<Endpoint>, rpn: Program)
    requires |leftKeys| == |rightKeys| == 1 && WellFormed(rpn) && ColumnsBelow(rpn, 1)
    ensures
      var mask := BoxMask(rpn, [Range(leftKeys[0], true, rightKeys[0], true)]);
      RangeAnswer(leftKeys, rightKeys, rpn) == Combine(mask, BoolMask(false, false))
  {
    hide BoxMask;
    OneBox(leftKeys, rightKeys);
    var box := [Range(leftKeys[0], true, rightKeys[0], true)];
    assert [box][1..] == [];
    assert CombineAll(BoxCallback(rpn, 1), []) == BoolMask(false, false);
  }

  /** The masks of atoms are combined as if these could be true at different keys: two tests of one column exclude each
      other, and an interval that reaches over both is not skipped. */
  lemma SharedColumnExample()
    ensures
      var rpn, left, right := [InRangeOf(1.0, 2.0), InRangeOf(3.0, 4.0), And], [Fin(0.0)], [Fin(5.0)];
      && WellFormed(rpn) && ValidProgram(rpn, 1) && ColumnsBelow(rpn, 1) && Ordered(left, right, 0)
      && !ReadOnce(rpn) && RangeAnswer(left, right, rpn).canBeTrue
      && forall x :: |x| == 1 ==> !Holds(rpn, x)
  {
    var a, b := InRangeOf(1.0, 2.0), InRangeOf(3.0, 4.0);
    var rpn := [a, b, And];
    var box := [Range(Fin(0.0), true, Fin(5.0), true)];
    assert a.Valid(1) && b.Valid(1) && ColumnsBelow([a], 1) && ColumnsBelow([b], 1);
    assert 0 in Depends(a) && 0 in Depends(b) && rpn[0] == a && rpn[1] == b;
    assert AtomMask(a, box).canBeTrue && AtomMask(b, box).canBeTrue;
    forall x: Key | |x| == 1 ensures !(b.Truth(x) && a.Truth(x)) {
    }
    hide AtomMask, BoxMask, Element.Truth, Element.Valid, Holds, Run, RangeAnswer, ColumnsBelow, WellFormed, Depends;
    TwoAtoms(a, b, box, [0.0]);
    forall x: Key | |x| == 1 ensures !Holds(rpn, x) {
      TwoAtoms(a, b, box, x);
    }
    OneAnswer([Fin(0.0)], [Fin(5.0)], rpn);
  }
}
