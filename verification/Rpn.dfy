/** Conditions over the key as reverse Polish notation, and their plain meaning at one key tuple. */
module Rpn {
  import opened BoolMasks
  import opened Ranges

  /** What a function reports about itself on one argument range. */
  datatype Monotonicity = Monotonicity(isMonotonic: bool, isPositive: bool, isAlwaysMonotonic: bool, isStrict: bool)

  datatype KeyFunction = KeyFunction(
    apply: real -> real, monotonicity: (Endpoint, Endpoint) -> Monotonicity, hasInformation: bool)

  type Chain = seq<KeyFunction>

  ghost predicate Between(l: Endpoint, x: real, r: Endpoint) {
    !Less(Fin(x), l) && !Less(r, Fin(x))
  }

  ghost predicate MonotoneOn(f: KeyFunction, l: Endpoint, r: Endpoint, positive: bool) {
    forall x, y :: Between(l, x, r) && Between(l, y, r) && x <= y ==>
      if positive then f.apply(x) <= f.apply(y) else f.apply(y) <= f.apply(x)
  }

  /** The reports are true: monotonic on the asked range; if always monotonic, on the whole domain; if strict, one to one. */
  ghost predicate HonestFunction(f: KeyFunction) {
    && (forall l, r :: var m := f.monotonicity(l, r);
          && (m.isMonotonic ==> MonotoneOn(f, l, r, m.isPositive))
          && (m.isAlwaysMonotonic ==> MonotoneOn(f, NegInf, PosInf, true) || MonotoneOn(f, NegInf, PosInf, false)))
    && (f.monotonicity(NegInf, PosInf).isStrict ==> forall x, y :: f.apply(x) == f.apply(y) ==> x == y)
  }

  ghost predicate HonestChain(chain: Chain) {
    forall i :: 0 <= i < |chain| ==> HonestFunction(chain[i])
  }

  function ApplyChain(chain: Chain, x: real): real {
    if chain == [] then x else ApplyChain(chain[1..], chain[0].apply(x))
  }

  datatype Mapping = Mapping(column: nat, chain: Chain)

  /** The set of an IN: its rows, which key column (under which functions) each row component is compared with, and
      the answer of its range lookup. */
  datatype SetIndex = SetIndex(mapping: seq<Mapping>, rows: seq<seq<real>>, checkInRange: Box -> BoolMask) {

    ghost predicate RowMatches(row: seq<real>, x: Key) {
      |row| == |mapping| && forall i :: 0 <= i < |mapping| ==>
        mapping[i].column < |x| && ApplyChain(mapping[i].chain, x[mapping[i].column]) == row[i]
    }

    ghost predicate Contains(x: Key) {
      exists k :: 0 <= k < |rows| && RowMatches(rows[k], x)
    }

    /** The contract of the lookup: an over-approximation of both answers on every box. */
    ghost predicate Valid(n: nat) {
      && (forall i :: 0 <= i < |mapping| ==> mapping[i].column < n && HonestChain(mapping[i].chain))
      && (forall k :: 0 <= k < |rows| ==> |rows[k]| == |mapping|)
      && (forall box, x :: |box| == n && InBox(box, x) ==> checkInRange(box).Admits(Contains(x)))
    }
  }

  /** `exact` is the predicate that a relaxed atom stands for: it may hold only where the range (set) test holds. */
  datatype Element =
    | InRange(column: nat, range: Range, chain: Chain, relaxed: bool, exact: Key -> bool)
    | NotInRange(column: nat, range: Range, chain: Chain, relaxed: bool, exact: Key -> bool)
    | InSet(index: SetIndex, relaxed: bool, exact: Key -> bool)
    | NotInSet(index: SetIndex, relaxed: bool, exact: Key -> bool)
    | IsNull(column: nat, relaxed: bool)
    | IsNotNull(column: nat, relaxed: bool)
    | Unknown(truth: Key -> bool)
    | Not
    | And
    | Or
    | AlwaysFalse
    | AlwaysTrue
  {
    function Arity(): nat {
      match this case Not => 1 case And => 2 case Or => 2 case _ => 0
    }

    ghost predicate Valid(n: nat) {
      match this
      case InRange(column, _, chain, _, _) => column < n && HonestChain(chain)
      case NotInRange(column, _, chain, _, _) => column < n && HonestChain(chain)
      case InSet(index, _, _) => index.Valid(n)
      case NotInSet(index, _, _) => index.Valid(n)
      case IsNull(column, _) => column < n
      case IsNotNull(column, _) => column < n
      case _ => true
    }

    /** The truth of an atom at a key tuple. Keys are never NULL. */
    ghost predicate Truth(x: Key)
      requires Arity() == 0 && Valid(|x|)
    {
      match this
      case InRange(column, range, chain, relaxed, exact) =>
        range.Has(ApplyChain(chain, x[column])) && (relaxed ==> exact(x))
      case NotInRange(column, range, chain, relaxed, exact) =>
        !(range.Has(ApplyChain(chain, x[column])) && (relaxed ==> exact(x)))
      case InSet(index, relaxed, exact) => index.Contains(x) && (relaxed ==> exact(x))
      case NotInSet(index, relaxed, exact) => !(index.Contains(x) && (relaxed ==> exact(x)))
      case IsNull(_, _) => false
      case IsNotNull(_, _) => true
      case Unknown(truth) => truth(x)
      case AlwaysFalse => false
      case AlwaysTrue => true
    }
  }

  type Program = seq<Element>

  ghost predicate ValidProgram(rpn: Program, n: nat) {
    forall i :: 0 <= i < |rpn| ==> rpn[i].Valid(n)
  }

  /** Stack height after running `rpn` from height `d`, or -1 when an operator would reach below the stack's bottom. */
  function Height(rpn: Program, d: nat): int
    ensures Height(rpn, d) >= -1
    decreases |rpn|
  {
    if rpn == [] then d
    else
      var h := Height(rpn[..|rpn| - 1], d);
      var arity := rpn[|rpn| - 1].Arity();
      if h < arity then -1 else h - arity + 1
  }

  predicate Runs(rpn: Program, d: nat) {
    Height(rpn, d) >= 0
  }

  predicate WellFormed(rpn: Program) {
    Runs(rpn, 0) && Height(rpn, 0) == 1
  }

  ghost function Step(e: Element, x: Key, stack: seq<bool>): seq<bool>
    requires e.Arity() <= |stack| && e.Valid(|x|)
    ensures |Step(e, x, stack)| == |stack| - e.Arity() + 1
  {
    var n := |stack|;
    match e
    case Not => stack[..n - 1] + [!stack[n - 1]]
    case And => stack[..n - 2] + [stack[n - 2] && stack[n - 1]]
    case Or => stack[..n - 2] + [stack[n - 2] || stack[n - 1]]
    case _ => stack + [e.Truth(x)]
  }

  ghost function Run(rpn: Program, x: Key, stack: seq<bool>): seq<bool>
    requires Runs(rpn, |stack|) && ValidProgram(rpn, |x|)
    ensures |Run(rpn, x, stack)| == Height(rpn, |stack|)
    decreases |rpn|
  {
    if rpn == [] then stack
    else Step(rpn[|rpn| - 1], x, Run(rpn[..|rpn| - 1], x, stack))
  }

  /** The plain meaning of a condition at a key tuple. */
  ghost predicate Holds(rpn: Program, x: Key)
    requires WellFormed(rpn) && ValidProgram(rpn, |x|)
  {
    Run(rpn, x, [])[0]
  }

  lemma {:induction false} RunsPrefix(rpn: Program, d: nat, i: nat)
    requires Runs(rpn, d) && i <= |rpn|
    ensures Runs(rpn[..i], d)
    decreases |rpn|
  {
    if i == |rpn| {
      assert rpn[..i] == rpn;
    } else {
      RunsPrefix(rpn[..|rpn| - 1], d, i);
      assert rpn[..|rpn| - 1][..i] == rpn[..i];
    }
  }

  /** One more element of a program that runs. */
  lemma RunsNext(rpn: Program, d: nat, i: nat)
    requires Runs(rpn, d) && i < |rpn|
    ensures Runs(rpn[..i], d) && Runs(rpn[..i + 1], d)
    ensures rpn[i].Arity() <= Height(rpn[..i], d)
    ensures Height(rpn[..i + 1], d) == Height(rpn[..i], d) - rpn[i].Arity() + 1
  {
    RunsPrefix(rpn, d, i);
    RunsPrefix(rpn, d, i + 1);
    assert rpn[..i + 1][..i] == rpn[..i];
  }

  lemma RunNext(rpn: Program, x: Key, stack: seq<bool>, i: nat)
    requires Runs(rpn, |stack|) && i < |rpn| && ValidProgram(rpn, |x|)
    ensures Runs(rpn[..i], |stack|) && Runs(rpn[..i + 1], |stack|)
    ensures rpn[i].Arity() <= Height(rpn[..i], |stack|)
    ensures Run(rpn[..i + 1], x, stack) == Step(rpn[i], x, Run(rpn[..i], x, stack))
  {
    RunsNext(rpn, |stack|, i);
    assert rpn[..i + 1][..i] == rpn[..i];
  }

  /** A program runs above whatever is already on the stack. */
  lemma {:induction false} RunFrame(rpn: Program, x: Key, stack: seq<bool>)
    requires Runs(rpn, 0) && ValidProgram(rpn, |x|)
    ensures Runs(rpn, |stack|) && Height(rpn, |stack|) == |stack| + Height(rpn, 0)
    ensures Run(rpn, x, stack) == stack + Run(rpn, x, [])
    decreases |rpn|
  {
    if rpn != [] {
      var init, e := rpn[..|rpn| - 1], rpn[|rpn| - 1];
      RunFrame(init, x, stack);
      var own := Run(init, x, []);
      StepFrame(e, x, stack, own);
      assert Step(e, x, stack + own) == stack + Step(e, x, own);
    } else {
      assert stack + [] == stack;
    }
  }

  lemma StepFrame(e: Element, x: Key, stack: seq<bool>, own: seq<bool>)
    requires e.Arity() <= |own| && e.Valid(|x|)
    ensures Step(e, x, stack + own) == stack + Step(e, x, own)
  {
    hide Element.Truth, Element.Valid;
    var n, m := |own|, |stack + own|;
    if e.Arity() > 0 {
      assert (stack + own)[..m - e.Arity()] == stack + own[..n - e.Arity()];
      assert (stack + own)[m - 1] == own[n - 1];
      if e.Arity() == 2 {
        assert (stack + own)[m - 2] == own[n - 2];
      }
    }
  }

  lemma {:induction false} RunConcat(a: Program, b: Program, x: Key, stack: seq<bool>)
    requires Runs(a, |stack|) && Runs(b, Height(a, |stack|))
    requires ValidProgram(a, |x|) && ValidProgram(b, |x|)
    ensures Runs(a + b, |stack|) && ValidProgram(a + b, |x|)
    ensures Run(a + b, x, stack) == Run(b, x, Run(a, x, stack))
    decreases |b|
  {
    hide Step, Element.Truth, Element.Valid;
    if b == [] {
      assert a + b == a;
    } else {
      var init, e := b[..|b| - 1], b[|b| - 1];
      RunConcat(a, init, x, stack);
      assert (a + b)[..|a + b| - 1] == a + init;
    }
  }

  /** Two conditions side by side leave both answers on the stack. */
  lemma TwoTerms(a: Program, b: Program, x: Key)
    requires WellFormed(a) && WellFormed(b) && ValidProgram(a, |x|) && ValidProgram(b, |x|)
    ensures Runs(a + b, 0) && ValidProgram(a + b, |x|) && Run(a + b, x, []) == [Holds(a, x), Holds(b, x)]
  {
    RunFrame(b, x, Run(a, x, []));
    RunConcat(a, b, x, []);
    assert Run(a, x, []) == [Holds(a, x)] && Run(b, x, []) == [Holds(b, x)];
  }

  lemma BinaryTerm(a: Program, b: Program, e: Element, x: Key)
    requires WellFormed(a) && WellFormed(b) && ValidProgram(a, |x|) && ValidProgram(b, |x|)
    requires e.And? || e.Or?
    ensures WellFormed(a + b + [e]) && ValidProgram(a + b + [e], |x|)
    ensures Holds(a + b + [e], x) == if e.And? then Holds(a, x) && Holds(b, x) else Holds(a, x) || Holds(b, x)
  {
    TwoTerms(a, b, x);
    assert (a + b + [e])[..|a + b|] == a + b;
  }

  lemma NotTerm(a: Program, x: Key)
    requires WellFormed(a) && ValidProgram(a, |x|)
    ensures WellFormed(a + [Not]) && ValidProgram(a + [Not], |x|)
    ensures Holds(a + [Not], x) == !Holds(a, x)
  {
    assert (a + [Not])[..|a|] == a;
  }

  lemma AtomTerm(e: Element, x: Key)
    requires e.Arity() == 0 && e.Valid(|x|)
    ensures WellFormed([e]) && ValidProgram([e], |x|) && Holds([e], x) == e.Truth(x)
  {
    assert [e][..0] == [];
    assert Run([], x, []) == [];
    assert Step(e, x, []) == [e.Truth(x)];
  }
}
