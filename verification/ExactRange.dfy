/** When a condition is one continuous range of the key (matchesExactContinuousRange). */
module ExactRange {
  import opened Ranges
  import opened Rpn

  datatype Constraint = POINT | RANGE | UNCONSTRAINED {
    function Rank(): nat {
      match this case POINT => 0 case RANGE => 1 case UNCONSTRAINED => 2
    }
  }

  /** Lexicographic order of key tuples, from component `i` on. */
  ghost predicate LexAtMost(a: Key, b: Key, i: nat)
    requires |a| == |b| && i <= |a|
    decreases |a| - i
  {
    i == |a| || a[i] < b[i] || (a[i] == b[i] && LexAtMost(a, b, i + 1))
  }

  predicate AllAlwaysMonotonic(chain: Chain) {
    forall i :: 0 <= i < |chain| ==>
      chain[i].hasInformation && chain[i].monotonicity(NegInf, PosInf).isAlwaysMonotonic
  }

  predicate AllStrict(chain: Chain) {
    forall i :: 0 <= i < |chain| ==> chain[i].monotonicity(NegInf, PosInf).isStrict
  }

  method CheckMonotonicityOfChain(chain: Chain) returns (always: bool, strict: bool)
    ensures always == AllAlwaysMonotonic(chain)
    ensures always ==> strict == AllStrict(chain)
  {
    always, strict := true, true;
    for i := 0 to |chain|
      invariant always == AllAlwaysMonotonic(chain[..i])
      invariant always ==> strict == AllStrict(chain[..i])
    {
      if !chain[i].hasInformation {
        return false, false;
      }
      var m := chain[i].monotonicity(NegInf, PosInf);
      always, strict := always && m.isAlwaysMonotonic, strict && m.isStrict;
      if !always && !strict {
        return;
      }
      assert chain[..i + 1] == chain[..i] + [chain[i]];
    }
    assert chain[..|chain|] == chain;
  }

  lemma {:induction false} ChainMonotone(chain: Chain) returns (positive: bool)
    requires HonestChain(chain) && AllAlwaysMonotonic(chain)
    ensures forall x, y :: x <= y ==>
      if positive then ApplyChain(chain, x) <= ApplyChain(chain, y) else ApplyChain(chain, y) <= ApplyChain(chain, x)
    decreases |chain|
  {
    if chain == [] {
      positive := true;
    } else {
      var f, rest := chain[0], chain[1..];
      var inner := ChainMonotone(rest);
      assert HonestFunction(f) && f.monotonicity(NegInf, PosInf).isAlwaysMonotonic;
      var outer := MonotoneOn(f, NegInf, PosInf, true);
      positive := inner == outer;
      forall x, y | x <= y
        ensures if positive then ApplyChain(chain, x) <= ApplyChain(chain, y) else ApplyChain(chain, y) <= ApplyChain(chain, x)
      {
        assert Between(NegInf, x, PosInf) && Between(NegInf, y, PosInf);
      }
    }
  }

  lemma {:induction false} ChainInjective(chain: Chain, x: real, y: real)
    requires HonestChain(chain) && AllStrict(chain)
    requires ApplyChain(chain, x) == ApplyChain(chain, y)
    ensures x == y
    decreases |chain|
  {
    if chain != [] {
      ChainInjective(chain[1..], chain[0].apply(x), chain[0].apply(y));
      assert HonestFunction(chain[0]);
    }
  }

  /** The condition with unknown atoms read as true and relaxed atoms read as their range or set test. */
  function Optimistic(e: Element): Element {
    match e
    case Unknown(_) => AlwaysTrue
    case InRange(column, range, chain, _, exact) => InRange(column, range, chain, false, exact)
    case NotInRange(column, range, chain, _, exact) => NotInRange(column, range, chain, false, exact)
    case InSet(index, _, exact) => InSet(index, false, exact)
    case NotInSet(index, _, exact) => NotInSet(index, false, exact)
    case _ => e
  }

  function OptimisticProgram(rpn: Program): Program
    ensures |OptimisticProgram(rpn)| == |rpn|
  {
    seq(|rpn|, i requires 0 <= i < |rpn| => Optimistic(rpn[i]))
  }

  lemma {:induction false} OptimisticRuns(rpn: Program, d: nat)
    ensures Height(OptimisticProgram(rpn), d) == Height(rpn, d)
    decreases |rpn|
  {
    if rpn != [] {
      assert OptimisticProgram(rpn)[..|rpn| - 1] == OptimisticProgram(rpn[..|rpn| - 1]);
      OptimisticRuns(rpn[..|rpn| - 1], d);
    }
  }

  /** Elements the method accepts: conjunctions of ranges and one-row sets, with unknown and true atoms. */
  predicate Conjunctive(e: Element) {
    || e.And? || e.Unknown? || e.AlwaysTrue?
    || (e.InSet? && |e.index.rows| == 1)
    || e.InRange?
  }

  ghost predicate AtomHolds(e: Element, x: Key)
    requires e.Valid(|x|)
  {
    e.Arity() == 0 ==> Optimistic(e).Truth(x)
  }

  ghost predicate AllAtomsHold(rpn: Program, x: Key)
    requires ValidProgram(rpn, |x|)
  {
    forall i :: 0 <= i < |rpn| ==> AtomHolds(rpn[i], x)
  }

  ghost predicate AllTrue(stack: seq<bool>) {
    forall i :: 0 <= i < |stack| ==> stack[i]
  }

  lemma OptimisticValid(rpn: Program, n: nat)
    requires ValidProgram(rpn, n)
    ensures ValidProgram(OptimisticProgram(rpn), n)
  {
    forall i | 0 <= i < |rpn| ensures OptimisticProgram(rpn)[i].Valid(n) {
      assert rpn[i].Valid(n);
    }
  }

  /** With AND as the only operator, the stack is all true exactly when every atom holds. */
  lemma {:induction false} ConjunctiveRun(rpn: Program, x: Key, stack: seq<bool>)
    requires Runs(rpn, |stack|) && ValidProgram(rpn, |x|)
    requires forall i :: 0 <= i < |rpn| ==> Conjunctive(rpn[i])
    ensures Runs(OptimisticProgram(rpn), |stack|) && ValidProgram(OptimisticProgram(rpn), |x|)
    ensures AllTrue(Run(OptimisticProgram(rpn), x, stack))
       <==> AllTrue(stack) && AllAtomsHold(rpn, x)
    decreases |rpn|
  {
    OptimisticRuns(rpn, |stack|);
    OptimisticValid(rpn, |x|);
    if rpn != [] {
      var init, e := rpn[..|rpn| - 1], rpn[|rpn| - 1];
      assert OptimisticProgram(rpn)[..|rpn| - 1] == OptimisticProgram(init);
      ConjunctiveRun(init, x, stack);
      assert Conjunctive(e) && OptimisticProgram(rpn)[|rpn| - 1] == Optimistic(e);
      AllTrueStep(Optimistic(e), x, Run(OptimisticProgram(init), x, stack));
      AllAtomsSplit(rpn, x);
    }
  }

  lemma AllAtomsSplit(rpn: Program, x: Key)
    requires rpn != [] && ValidProgram(rpn, |x|)
    ensures AllAtomsHold(rpn, x) <==> AllAtomsHold(rpn[..|rpn| - 1], x) && AtomHolds(rpn[|rpn| - 1], x)
  {
    var init := rpn[..|rpn| - 1];
    assert forall i :: 0 <= i < |init| ==> init[i] == rpn[i];
  }

  lemma AllTrueStep(e: Element, x: Key, stack: seq<bool>)
    requires e.Arity() <= |stack| && e.Valid(|x|)
    requires e.And? || e.Arity() == 0
    ensures AllTrue(Step(e, x, stack))
       <==> AllTrue(stack) && (e.Arity() == 0 ==> e.Truth(x))
  {
    var n := |stack|;
    var after := Step(e, x, stack);
    if e.And? {
      assert after[n - 2] == (stack[n - 2] && stack[n - 1]);
      assert forall i :: 0 <= i < n - 2 ==> after[i] == stack[i];
    } else {
      assert after == stack + [e.Truth(x)];
      assert after[n] == e.Truth(x);
      assert forall i :: 0 <= i < n ==> after[i] == stack[i];
    }
  }

  predicate Touches(e: Element, c: nat) {
    || (e.InRange? && e.column == c)
    || (e.InSet? && exists i :: 0 <= i < |e.index.mapping| && e.index.mapping[i].column == c)
  }

  predicate ChainsMonotonic(e: Element) {
    && (e.InRange? ==> AllAlwaysMonotonic(e.chain))
    && (e.InSet? ==> forall i :: 0 <= i < |e.index.mapping| ==> AllAlwaysMonotonic(e.index.mapping[i].chain))
  }

  /** An atom holds between two keys that satisfy it, if each touched component lies between theirs. */
  lemma AtomConvex(e: Element, a: Key, b: Key, c: Key)
    requires |a| == |b| == |c| && e.Valid(|a|) && Conjunctive(e) && ChainsMonotonic(e)
    requires AtomHolds(e, a) && AtomHolds(e, c)
    requires forall i :: 0 <= i < |a| && Touches(e, i) ==> a[i] <= b[i] <= c[i]
    ensures AtomHolds(e, b)
  {
    if e.InRange? {
      assert Touches(e, e.column);
      BetweenUnderChain(e.chain, a[e.column], b[e.column], c[e.column]);
    } else if e.InSet? {
      SetAtomConvex(e, a, b, c);
    }
  }

  /** A monotonic chain keeps the order of three values, or turns it around. */
  lemma BetweenUnderChain(chain: seq<KeyFunction>, a: real, b: real, c: real)
    requires AllAlwaysMonotonic(chain) && HonestChain(chain) && a <= b <= c
    ensures
      var x, y, z := ApplyChain(chain, a), ApplyChain(chain, b), ApplyChain(chain, c);
      x <= y <= z || z <= y <= x
  {
    var _ := ChainMonotone(chain);
  }

  lemma SetAtomConvex(e: Element, a: Key, b: Key, c: Key)
    requires |a| == |b| == |c| && e.Valid(|a|) && e.InSet? && Conjunctive(e) && ChainsMonotonic(e)
    requires AtomHolds(e, a) && AtomHolds(e, c)
    requires forall i :: 0 <= i < |a| && Touches(e, i) ==> a[i] <= b[i] <= c[i]
    ensures AtomHolds(e, b)
  {
    hide ApplyChain, AllAlwaysMonotonic;
    var index := e.index;
    assert index.RowMatches(index.rows[0], a) && index.RowMatches(index.rows[0], c);
    forall i | 0 <= i < |index.mapping|
      ensures ApplyChain(index.mapping[i].chain, b[index.mapping[i].column]) == index.rows[0][i]
    {
      var column := index.mapping[i].column;
      assert Touches(e, column);
      BetweenUnderChain(index.mapping[i].chain, a[column], b[column], c[column]);
    }
    assert index.RowMatches(index.rows[0], b);
  }

  lemma RangeAtomPins(e: Element, a: Key, b: Key)
    requires |a| == |b| && e.Valid(|a|) && e.InRange? && AllStrict(e.chain) && e.range.left == e.range.right
    requires AtomHolds(e, a) && AtomHolds(e, b)
    ensures a[e.column] == b[e.column]
  {
    ChainInjective(e.chain, a[e.column], b[e.column]);
  }

  lemma SetAtomPins(e: Element, i: nat, a: Key, b: Key)
    requires |a| == |b| && e.Valid(|a|) && e.InSet? && |e.index.rows| == 1
    requires i < |e.index.mapping| && AllStrict(e.index.mapping[i].chain)
    requires AtomHolds(e, a) && AtomHolds(e, b)
    ensures a[e.index.mapping[i].column] == b[e.index.mapping[i].column]
  {
    var index := e.index;
    assert index.RowMatches(index.rows[0], a) && index.RowMatches(index.rows[0], b);
    ChainInjective(index.mapping[i].chain, a[index.mapping[i].column], b[index.mapping[i].column]);
  }

  /** Two keys that satisfy the atoms agree in a pinned component. */
  lemma PinsAgree(rpn: Program, c: nat, a: Key, b: Key)
    requires |a| == |b| && ValidProgram(rpn, |a|) && Admissible(rpn) && SomePins(rpn, c)
    requires AllAtomsHold(rpn, a) && AllAtomsHold(rpn, b)
    ensures c < |a| && a[c] == b[c]
  {
    var i :| 0 <= i < |rpn| && PointAtom(rpn[i], c);
    var e := rpn[i];
    assert e.Valid(|a|) && Conjunctive(e) && AtomHolds(e, a) && AtomHolds(e, b);
    if e.InRange? {
      RangeAtomPins(e, a, b);
    } else {
      var j :| 0 <= j < |e.index.mapping| && e.index.mapping[j].column == c && AllStrict(e.index.mapping[j].chain);
      SetAtomPins(e, j, a, b);
    }
  }

  /** Behind components in which the outer keys agree, the middle key agrees too, and lies between them in the next one. */
  lemma {:induction false} Squeezed(a: Key, b: Key, c: Key, k: nat)
    requires |a| == |b| == |c| && k < |a|
    requires LexAtMost(a, b, 0) && LexAtMost(b, c, 0)
    requires forall i :: 0 <= i < k ==> a[i] == c[i]
    ensures LexAtMost(a, b, k) && LexAtMost(b, c, k)
    ensures a[k] <= b[k] <= c[k]
    ensures forall i :: 0 <= i < k ==> a[i] == b[i]
  {
    if k > 0 {
      Squeezed(a, b, c, k - 1);
    }
  }

  /** The atom pins component `c`: a one-point range, or a one-row set, under strict functions only. */
  predicate PointAtom(e: Element, c: nat) {
    || (e.InRange? && e.column == c && e.range.left == e.range.right && AllStrict(e.chain))
    || (e.InSet? && exists i :: 0 <= i < |e.index.mapping| && e.index.mapping[i].column == c && AllStrict(e.index.mapping[i].chain))
  }

  predicate SomeTouches(rpn: Program, c: nat) {
    exists i :: 0 <= i < |rpn| && Touches(rpn[i], c)
  }

  predicate SomePins(rpn: Program, c: nat) {
    exists i :: 0 <= i < |rpn| && PointAtom(rpn[i], c)
  }

  predicate Admissible(rpn: Program) {
    forall i :: 0 <= i < |rpn| ==> Conjunctive(rpn[i]) && ChainsMonotonic(rpn[i])
  }

  /** What the column constraints mean for the elements seen so far. */
  predicate Describes(constraints: seq<Constraint>, rpn: Program, n: nat) {
    && |constraints| == n
    && (forall c :: 0 <= c < n ==> (constraints[c] == POINT <==> SomePins(rpn, c)))
    && (forall c :: 0 <= c < n ==> (constraints[c] != UNCONSTRAINED <==> SomeTouches(rpn, c)))
  }

  /** The conditions accepted: conjunctions over monotonic functions in which the first column is constrained and every
      column before a constrained one is pinned to a point. */
  predicate Accepted(rpn: Program, n: nat) {
    && Admissible(rpn) && SomeTouches(rpn, 0)
    && forall j, k :: 0 <= j < k < n && SomeTouches(rpn, k) ==> SomePins(rpn, j)
  }

  /** Every column before a constrained one is pinned to a point. */
  predicate Continuous(constraints: seq<Constraint>) {
    forall j, k :: 0 <= j < k < |constraints| && constraints[k] != UNCONSTRAINED ==> constraints[j] == POINT
  }

  ghost predicate Convex(rpn: Program, n: nat)
    requires WellFormed(rpn) && ValidProgram(rpn, n)
  {
    forall a, b, c | |a| == |b| == |c| == n && LexAtMost(a, b, 0) && LexAtMost(b, c, 0)
      && HoldsOptimistically(rpn, a) && HoldsOptimistically(rpn, c) :: HoldsOptimistically(rpn, b)
  }

  ghost predicate HoldsOptimistically(rpn: Program, x: Key)
    requires WellFormed(rpn) && ValidProgram(rpn, |x|)
  {
    OptimisticRuns(rpn, 0);
    Holds(OptimisticProgram(rpn), x)
  }

  lemma ColumnBetween(rpn: Program, n: nat, a: Key, b: Key, c: Key, k: nat)
    requires ValidProgram(rpn, n) && |a| == |b| == |c| == n && k < n
    requires Accepted(rpn, n) && SomeTouches(rpn, k)
    requires LexAtMost(a, b, 0) && LexAtMost(b, c, 0)
    requires AllAtomsHold(rpn, a) && AllAtomsHold(rpn, c)
    ensures a[k] <= b[k] <= c[k]
  {
    forall j | 0 <= j < k ensures a[j] == c[j] {
      PinsAgree(rpn, j, a, c);
    }
    Squeezed(a, b, c, k);
  }

  lemma BetweenHolds(rpn: Program, n: nat, a: Key, b: Key, c: Key, i: nat)
    requires ValidProgram(rpn, n) && |a| == |b| == |c| == n && i < |rpn|
    requires Accepted(rpn, n)
    requires LexAtMost(a, b, 0) && LexAtMost(b, c, 0)
    requires AllAtomsHold(rpn, a) && AllAtomsHold(rpn, c)
    ensures AtomHolds(rpn[i], b)
  {
    var e := rpn[i];
    assert AtomHolds(e, a) && AtomHolds(e, c);
    forall k | 0 <= k < n && Touches(e, k)
      ensures a[k] <= b[k] <= c[k]
    {
      ColumnBetween(rpn, n, a, b, c, k);
    }
    AtomConvex(e, a, b, c);
  }

  /** The set of key tuples that satisfy an accepted condition is convex in lexicographic order. */
  lemma AcceptedIsConvex(rpn: Program, n: nat)
    requires WellFormed(rpn) && ValidProgram(rpn, n)
    requires Accepted(rpn, n)
    ensures Convex(rpn, n)
  {
    forall a, b, c | |a| == |b| == |c| == n && LexAtMost(a, b, 0) && LexAtMost(b, c, 0)
      && HoldsOptimistically(rpn, a) && HoldsOptimistically(rpn, c)
      ensures HoldsOptimistically(rpn, b)
    {
      HoldsIsAllAtoms(rpn, a);
      HoldsIsAllAtoms(rpn, b);
      HoldsIsAllAtoms(rpn, c);
      forall i | 0 <= i < |rpn| ensures AtomHolds(rpn[i], b) {
        BetweenHolds(rpn, n, a, b, c, i);
      }
    }
  }

  lemma HoldsIsAllAtoms(rpn: Program, x: Key)
    requires WellFormed(rpn) && ValidProgram(rpn, |x|)
    requires forall i :: 0 <= i < |rpn| ==> Conjunctive(rpn[i])
    ensures HoldsOptimistically(rpn, x) <==> AllAtomsHold(rpn, x)
  {
    ConjunctiveRun(rpn, x, []);
    OptimisticRuns(rpn, 0);
    var stack := Run(OptimisticProgram(rpn), x, []);
    assert stack == [stack[0]];
  }

  // ---- no condition of this form is rejected without need ----

  /** Ranges of a key column itself that leave something out, one-row sets of key columns, and what the method passes over. */
  ghost predicate Direct(e: Element) {
    || e.And? || e.Unknown? || e.AlwaysTrue?
    || (e.InRange? && e.chain == [] && exists v: real :: !e.range.Has(v))
    || (e.InSet? && |e.index.rows| == 1 && forall i :: 0 <= i < |e.index.mapping| ==> e.index.mapping[i].chain == [])
  }

  ghost predicate ColumnsApart(rpn: Program) {
    forall i, j, c: nat :: 0 <= i < j < |rpn| && Touches(rpn[i], c) ==> !Touches(rpn[j], c)
  }

  lemma {:induction false} LexBefore(a: Key, b: Key, i: nat, j: nat)
    requires |a| == |b| && i <= j < |a| && a[j] < b[j] && forall k :: i <= k < j ==> a[k] == b[k]
    ensures LexAtMost(a, b, i)
    decreases j - i
  {
    if i < j {
      LexBefore(a, b, i + 1, j);
    }
  }

  lemma AtomIgnores(e: Element, x: Key, c: nat, v: real)
    requires e.Valid(|x|) && Direct(e) && c < |x| && !Touches(e, c)
    ensures AtomHolds(e, x[c := v]) <==> AtomHolds(e, x)
  {
    if e.InSet? {
      var index, y := e.index, x[c := v];
      forall i | 0 <= i < |index.mapping| ensures y[index.mapping[i].column] == x[index.mapping[i].column] {
      }
      assert index.RowMatches(index.rows[0], y) <==> index.RowMatches(index.rows[0], x);
    }
  }

  /** Some value of the column falsifies the atom. */
  lemma Violated(e: Element, x: Key, c: nat) returns (v: real)
    requires e.Valid(|x|) && Direct(e) && c < |x| && Touches(e, c)
    ensures !AtomHolds(e, x[c := v])
  {
    if e.InRange? {
      v :| !e.range.Has(v);
    } else {
      var i :| 0 <= i < |e.index.mapping| && e.index.mapping[i].column == c;
      v := e.index.rows[0][i] + 1.0;
      assert !e.index.RowMatches(e.index.rows[0], x[c := v]);
    }
  }

  lemma SecondValue(r: Range, v: real) returns (w: real)
    requires r.Has(v) && r.left != r.right
    ensures r.Has(w) && w != v
  {
    if Less(Fin(v), r.right) {
      w := if r.right.Fin? then (v + r.right.value) / 2.0 else v + 1.0;
    } else {
      w := if r.left.Fin? then (v + r.left.value) / 2.0 else v - 1.0;
    }
  }

  lemma AllIgnore(rpn: Program, x: Key, c: nat, v: real, except: int)
    requires ValidProgram(rpn, |x|) && (forall i :: 0 <= i < |rpn| ==> Direct(rpn[i])) && c < |x| && AllAtomsHold(rpn, x)
    requires forall i :: 0 <= i < |rpn| && i != except ==> !Touches(rpn[i], c)
    requires 0 <= except < |rpn| ==> AtomHolds(rpn[except], x[c := v])
    ensures AllAtomsHold(rpn, x[c := v])
  {
    forall i | 0 <= i < |rpn| ensures AtomHolds(rpn[i], x[c := v]) {
      if i != except {
        assert AtomHolds(rpn[i], x);
        AtomIgnores(rpn[i], x, c, v);
      }
    }
  }

  /** A column that no atom pins can take another value. */
  lemma Unpinned(rpn: Program, x: Key, c: nat) returns (w: real)
    requires ValidProgram(rpn, |x|) && (forall i :: 0 <= i < |rpn| ==> Direct(rpn[i])) && c < |x| && AllAtomsHold(rpn, x)
    requires ColumnsApart(rpn) && !SomePins(rpn, c)
    ensures w != x[c] && AllAtomsHold(rpn, x[c := w])
  {
    if i :| 0 <= i < |rpn| && Touches(rpn[i], c) {
      var e := rpn[i];
      assert Direct(e) && !PointAtom(e, c) && AtomHolds(e, x);
      NoPinIsRange(e, c);
      w := SecondValue(e.range, x[c]);
      AllIgnore(rpn, x, c, w, i);
    } else {
      w := x[c] + 1.0;
      AllIgnore(rpn, x, c, w, -1);
    }
  }

  lemma NoPinIsRange(e: Element, c: nat)
    requires Direct(e) && Touches(e, c) && !PointAtom(e, c)
    ensures e.InRange? && e.column == c && e.range.left != e.range.right
  {
  }

  lemma NotConvex(rpn: Program, n: nat, a: Key, b: Key, c: Key)
    requires WellFormed(rpn) && ValidProgram(rpn, n) && (forall i :: 0 <= i < |rpn| ==> Conjunctive(rpn[i]))
    requires |a| == |b| == |c| == n && LexAtMost(a, b, 0) && LexAtMost(b, c, 0)
    requires AllAtomsHold(rpn, a) && AllAtomsHold(rpn, c) && !AllAtomsHold(rpn, b)
    ensures !Convex(rpn, n)
  {
    HoldsIsAllAtoms(rpn, a);
    HoldsIsAllAtoms(rpn, b);
    HoldsIsAllAtoms(rpn, c);
    hide HoldsOptimistically, AllAtomsHold, LexAtMost;
  }

  /** A constrained column behind one that is not pinned leaves a gap between two keys that satisfy the condition. */
  lemma GapFound(rpn: Program, n: nat, x: Key, j: nat, k: nat)
    requires WellFormed(rpn) && ValidProgram(rpn, n) && (forall i :: 0 <= i < |rpn| ==> Direct(rpn[i])) && ColumnsApart(rpn)
    requires |x| == n && AllAtomsHold(rpn, x) && j < k < n && SomeTouches(rpn, k) && !SomePins(rpn, j)
    ensures !Convex(rpn, n)
  {
    DirectIsConjunctive(rpn);
    var w := Unpinned(rpn, x, j);
    var i :| 0 <= i < |rpn| && Touches(rpn[i], k);
    hide SomePins, SomeTouches, Direct, ColumnsApart, WellFormed, Touches, Convex, Conjunctive, Admissible, Element.Valid;
    var y := x[j := w];
    var a, c := if x[j] < w then x else y, if x[j] < w then y else x;
    var middle := x[j := (x[j] + w) / 2.0];
    var out := Violated(rpn[i], middle, k);
    var b := middle[k := out];
    assert !AllAtomsHold(rpn, b);
    hide AllAtomsHold;
    LexBefore(a, b, 0, j);
    LexBefore(b, c, 0, j);
    NotConvex(rpn, n, a, b, c);
  }

  lemma DirectIsConjunctive(rpn: Program)
    requires forall i :: 0 <= i < |rpn| ==> Direct(rpn[i])
    ensures forall i :: 0 <= i < |rpn| ==> Conjunctive(rpn[i])
    ensures Admissible(rpn)
  {
    forall i | 0 <= i < |rpn| ensures Conjunctive(rpn[i]) && ChainsMonotonic(rpn[i]) {
      assert Direct(rpn[i]);
    }
  }

  /**
   * A conjunction of such atoms on different columns that some key satisfies is accepted if and only if it mentions a key
   * column and the keys that satisfy it are convex.
   */
  lemma AcceptedExact(rpn: Program, n: nat, x: Key)
    requires WellFormed(rpn) && ValidProgram(rpn, n) && (forall i :: 0 <= i < |rpn| ==> Direct(rpn[i])) && ColumnsApart(rpn)
    requires n > 0 && |x| == n && HoldsOptimistically(rpn, x)
    ensures Accepted(rpn, n) <==> Convex(rpn, n) && exists c :: 0 <= c < n && SomeTouches(rpn, c)
  {
    hide SomeTouches, SomePins, Direct, Convex, ColumnsApart, HoldsOptimistically;
    DirectIsConjunctive(rpn);
    HoldsIsAllAtoms(rpn, x);
    if Accepted(rpn, n) {
      AcceptedIsConvex(rpn, n);
    } else if c :| 0 <= c < n && SomeTouches(rpn, c) {
      if SomeTouches(rpn, 0) {
        var j, k :| 0 <= j < k < n && SomeTouches(rpn, k) && !SomePins(rpn, j);
        GapFound(rpn, n, x, j, k);
      } else {
        PinsTouch(rpn, 0);
        GapFound(rpn, n, x, 0, c);
      }
    }
  }

  lemma PinsTouch(rpn: Program, c: nat)
    ensures SomePins(rpn, c) ==> SomeTouches(rpn, c)
  {
    if i :| 0 <= i < |rpn| && PointAtom(rpn[i], c) {
      assert Touches(rpn[i], c);
    }
  }

  /** All functions report that they are monotonic everywhere, and strictly so. */
  predicate StrictChain(chain: Chain) {
    forall i :: 0 <= i < |chain| ==>
      chain[i].hasInformation && chain[i].monotonicity(NegInf, PosInf).isAlwaysMonotonic && chain[i].monotonicity(NegInf, PosInf).isStrict
  }

  /** Under functions: points of strictly monotonic functions in front of one range of a monotonic function are accepted. */
  lemma PointThenRangeAccepted(point: Element, range: Element, n: nat)
    requires n >= 2 && point.InRange? && point.column == 0 && point.range.left == point.range.right && StrictChain(point.chain)
    requires range.InRange? && range.column == 1
    requires forall i :: 0 <= i < |range.chain| ==>
               range.chain[i].hasInformation && range.chain[i].monotonicity(NegInf, PosInf).isAlwaysMonotonic
    ensures Accepted([point, range, And], n)
  {
    var rpn := [point, range, And];
    assert Touches(rpn[0], 0) && PointAtom(rpn[0], 0);
    assert forall c: nat :: SomeTouches(rpn, c) ==> c <= 1;
    assert SomeTouches(rpn, 0) && SomePins(rpn, 0);
  }

  /** If the answer is yes, the condition is satisfied on one unbroken run of keys in their sort order. */
  method MatchesExactContinuousRange(rpn: Program, numKeyColumns: nat) returns (result: bool)
    requires numKeyColumns > 0 && WellFormed(rpn) && ValidProgram(rpn, numKeyColumns)
    ensures result <==> Accepted(rpn, numKeyColumns)
    ensures result ==> Convex(rpn, numKeyColumns)
  {
    var n := numKeyColumns;
    var constraints := seq(n, _ => UNCONSTRAINED);
    for i := 0 to |rpn|
      invariant |constraints| == n
      invariant Admissible(rpn[..i]) && Describes(constraints, rpn[..i], n)
    {
      var ok;
      assert rpn[..i + 1] == rpn[..i] + [rpn[i]];
      ok, constraints := Constrain(constraints, rpn[..i], rpn[i], n);
      if !ok {
        return false;
      }
    }
    assert rpn[..|rpn|] == rpn;
    result := IsContinuous(constraints);
    if result {
      AcceptedIsConvex(rpn, n);
    }
  }

  /** The last loop: points, then at most one range, then nothing. */
  method IsContinuous(constraints: seq<Constraint>) returns (result: bool)
    requires constraints != []
    ensures result <==> Continuous(constraints) && constraints[0] != UNCONSTRAINED
  {
    var minConstraint := constraints[0];
    if minConstraint.UNCONSTRAINED? {
      return false;
    }
    for i := 1 to |constraints|
      invariant minConstraint == constraints[i - 1] && !constraints[0].UNCONSTRAINED?
      invariant Continuous(constraints[..i])
    {
      if constraints[i].Rank() < minConstraint.Rank() {
        assert constraints[i] != UNCONSTRAINED && constraints[i - 1] != POINT;
        return false;
      }
      if constraints[i] == RANGE && minConstraint == RANGE {
        return false;
      }
      minConstraint := constraints[i];
    }
    assert constraints[..|constraints|] == constraints;
    return true;
  }

  lemma DescribesNext(constraints: seq<Constraint>, result: seq<Constraint>, seen: Program, e: Element, n: nat)
    requires Describes(constraints, seen, n) && |result| == n
    requires forall c :: 0 <= c < n ==> (result[c] == POINT <==> constraints[c] == POINT || PointAtom(e, c))
    requires forall c :: 0 <= c < n ==> (result[c] != UNCONSTRAINED <==> constraints[c] != UNCONSTRAINED || Touches(e, c))
    ensures Describes(result, seen + [e], n)
  {
    var all := seen + [e];
    assert all[|seen|] == e;
    assert forall i :: 0 <= i < |seen| ==> all[i] == seen[i];
    assert forall c: nat :: SomePins(all, c) <==> SomePins(seen, c) || PointAtom(e, c);
    assert forall c: nat :: SomeTouches(all, c) <==> SomeTouches(seen, c) || Touches(e, c);
  }

  /** One element's effect on the column constraints; `ok` is false where the source gives up. */
  method Constrain(constraints: seq<Constraint>, ghost seen: Program, e: Element, n: nat)
    returns (ok: bool, result: seq<Constraint>)
    requires e.Valid(n)
    requires Describes(constraints, seen, n)
    ensures ok <==> Conjunctive(e) && ChainsMonotonic(e)
    ensures ok ==> Describes(result, seen + [e], n)
  {
    result := constraints;
    if e.And? || e.Unknown? || e.AlwaysTrue? {
      DescribesNext(constraints, constraints, seen, e, n);
      return true, constraints;
    }
    if e.InSet? && |e.index.rows| == 1 {
      ok, result := ConstrainBySet(constraints, seen, e, n);
      return;
    }
    if e.InRange? {
      var always, strict := CheckMonotonicityOfChain(e.chain);
      if !always {
        return false, constraints;
      }
      if e.range.left == e.range.right && strict {
        result := result[e.column := POINT];
      }
      if result[e.column] != POINT {
        result := result[e.column := RANGE];
      }
      DescribesNext(constraints, result, seen, e, n);
      return true, result;
    }
    return false, constraints;
  }

  method ConstrainBySet(constraints: seq<Constraint>, ghost seen: Program, e: Element, n: nat)
    returns (ok: bool, result: seq<Constraint>)
    requires e.Valid(n) && e.InSet? && |e.index.rows| == 1
    requires Describes(constraints, seen, n)
    ensures ok <==> ChainsMonotonic(e)
    ensures ok ==> Describes(result, seen + [e], n)
  {
    result := constraints;
    var mapping := e.index.mapping;
    for i := 0 to |mapping|
      invariant |result| == n
      invariant forall j :: 0 <= j < i ==> AllAlwaysMonotonic(mapping[j].chain)
      invariant forall c :: 0 <= c < n ==>
        (result[c] == POINT
         <==> (constraints[c] == POINT || exists j :: 0 <= j < i && mapping[j].column == c && AllStrict(mapping[j].chain)))
      invariant forall c :: 0 <= c < n ==>
        (result[c] != UNCONSTRAINED <==> constraints[c] != UNCONSTRAINED || exists j :: 0 <= j < i && mapping[j].column == c)
    {
      var always, strict := CheckMonotonicityOfChain(mapping[i].chain);
      if !always {
        return false, result;
      }
      if strict {
        result := result[mapping[i].column := POINT];
      } else if result[mapping[i].column] != POINT {
        result := result[mapping[i].column := RANGE];
      }
    }
    DescribesNext(constraints, result, seen, e, n);
    return true, result;
  }
}
