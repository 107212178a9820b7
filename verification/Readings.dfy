/**
 * What the methods on a program cannot see: for a relaxed atom just the range or set test is known, for an unknown atom
 * nothing. Programs that differ only there are alike, and two of them are the least and the most often true.
 */
module Readings {
  import opened Options
  import opened Ranges
  import opened Rpn
  import opened Conjunction

  /** The same element, up to the predicates that no method evaluates. */
  ghost predicate AlikeElement(e: Element, f: Element) {
    match e
    case InRange(column, range, chain, relaxed, _) => f.InRange? && f == InRange(column, range, chain, relaxed, f.exact)
    case NotInRange(column, range, chain, relaxed, _) => f.NotInRange? && f == NotInRange(column, range, chain, relaxed, f.exact)
    case InSet(index, relaxed, _) => f.InSet? && f == InSet(index, relaxed, f.exact)
    case NotInSet(index, relaxed, _) => f.NotInSet? && f == NotInSet(index, relaxed, f.exact)
    case Unknown(_) => f.Unknown?
    case _ => f == e
  }

  ghost predicate Alike(a: Program, b: Program) {
    |a| == |b| && forall i :: 0 <= i < |a| ==> AlikeElement(a[i], b[i])
  }

  /** The element read as favourably (`high`) or as unfavourably as its test allows. */
  function Read(e: Element, high: bool): Element {
    match e
    case InRange(column, range, chain, relaxed, _) => InRange(column, range, chain, relaxed, _ => high)
    case NotInRange(column, range, chain, relaxed, _) => NotInRange(column, range, chain, relaxed, _ => !high)
    case InSet(index, relaxed, _) => InSet(index, relaxed, _ => high)
    case NotInSet(index, relaxed, _) => NotInSet(index, relaxed, _ => !high)
    case Unknown(_) => Unknown(_ => high)
    case _ => e
  }

  /** A term with its least and its most favourable reading. */
  datatype Fork = Fork(term: Program, low: Program, high: Program)

  /** NOT swaps the readings. */
  function ForkStep(e: Element, stack: seq<Fork>): (r: seq<Fork>)
    requires e.Arity() <= |stack|
    ensures |r| == |stack| - e.Arity() + 1
  {
    var n := |stack|;
    match e
    case Not => stack[..n - 1] + [Negated(stack[n - 1], e)]
    case And => stack[..n - 2] + [Joined(stack[n - 2], stack[n - 1], e)]
    case Or => stack[..n - 2] + [Joined(stack[n - 2], stack[n - 1], e)]
    case _ => stack + [Fork([e], [Read(e, false)], [Read(e, true)])]
  }

  function Negated(a: Fork, e: Element): Fork {
    Fork(a.term + [e], a.high + [e], a.low + [e])
  }

  function Joined(a: Fork, b: Fork, e: Element): Fork {
    Fork(a.term + b.term + [e], a.low + b.low + [e], a.high + b.high + [e])
  }

  function ForkRun(rpn: Program): (r: seq<Fork>)
    requires Runs(rpn, 0)
    ensures |r| == Height(rpn, 0)
    decreases |rpn|
  {
    if rpn == [] then [] else ForkStep(rpn[|rpn| - 1], ForkRun(rpn[..|rpn| - 1]))
  }

  /** The reading of the whole condition that is true most often (`high`) or least often. */
  function Reading(rpn: Program, high: bool): Program
    requires WellFormed(rpn)
  {
    if high then ForkRun(rpn)[0].high else ForkRun(rpn)[0].low
  }

  // ---- alike programs ----

  lemma AlikeKeeps(e: Element, f: Element, n: nat)
    requires AlikeElement(e, f)
    ensures f.Arity() == e.Arity() && (e.Arity() > 0 ==> f == e)
    ensures e.Valid(n) ==> f.Valid(n)
    ensures AlikeElement(f, e)
  {
  }

  lemma {:induction false} AlikeHeight(a: Program, b: Program, d: nat)
    requires Alike(a, b)
    ensures Height(b, d) == Height(a, d)
    decreases |a|
  {
    hide AlikeElement;
    if a != [] {
      AlikeHeight(a[..|a| - 1], b[..|b| - 1], d);
      AlikeKeeps(a[|a| - 1], b[|b| - 1], 0);
    }
  }

  lemma AlikeValid(a: Program, b: Program, n: nat)
    requires Alike(a, b) && ValidProgram(a, n)
    ensures ValidProgram(b, n)
  {
    hide AlikeElement, Element.Valid;
    forall i | 0 <= i < |b| ensures b[i].Valid(n) {
      AlikeKeeps(a[i], b[i], n);
    }
  }

  lemma AlikeConcat(a: Program, b: Program, c: Program, d: Program)
    requires Alike(a, c) && Alike(b, d)
    ensures Alike(a + b, c + d)
  {
    hide AlikeElement;
  }

  lemma AlikeSelf(e: Element)
    ensures Alike([e], [e])
  {
  }

  /** The truth of every alike atom lies between those of the two readings. */
  lemma ReadBounds(e: Element, f: Element, x: Key)
    requires e.Arity() == 0 && e.Valid(|x|) && AlikeElement(e, f)
    ensures Read(e, false).Arity() == 0 && Read(e, false).Valid(|x|) && Read(e, true).Arity() == 0 && Read(e, true).Valid(|x|)
    ensures f.Arity() == 0 && f.Valid(|x|)
    ensures Read(e, false).Truth(x) ==> f.Truth(x)
    ensures f.Truth(x) ==> Read(e, true).Truth(x)
  {
  }

  lemma ReadIsAlike(e: Element, high: bool)
    requires e.Arity() == 0
    ensures Alike([e], [Read(e, high)])
  {
  }

  // ---- the two readings are alike ----

  function Terms(stack: seq<Fork>): Program {
    if stack == [] then [] else Terms(stack[..|stack| - 1]) + stack[|stack| - 1].term
  }

  ghost predicate AlikeFork(f: Fork) {
    Alike(f.term, f.low) && Alike(f.term, f.high)
  }

  ghost predicate AlikeForks(stack: seq<Fork>) {
    forall i :: 0 <= i < |stack| ==> AlikeFork(stack[i])
  }

  lemma TermsSnoc(stack: seq<Fork>, f: Fork)
    ensures Terms(stack + [f]) == Terms(stack) + f.term
  {
    assert (stack + [f])[..|stack|] == stack;
  }

  lemma TermsStep(e: Element, stack: seq<Fork>)
    requires e.Arity() <= |stack|
    ensures Terms(ForkStep(e, stack)) == Terms(stack) + [e]
  {
    if e.Not? {
      TermsNegated(e, stack);
    } else if e.And? || e.Or? {
      TermsJoined(e, stack);
    } else {
      TermsSnoc(stack, Fork([e], [Read(e, false)], [Read(e, true)]));
    }
  }

  lemma TermsNegated(e: Element, stack: seq<Fork>)
    requires 1 <= |stack|
    ensures Terms(stack[..|stack| - 1] + [Negated(stack[|stack| - 1], e)]) == Terms(stack) + [e]
  {
    var rest, a := stack[..|stack| - 1], stack[|stack| - 1];
    TermsSnoc(rest, Negated(a, e));
    assert Terms(rest) + (a.term + [e]) == Terms(rest) + a.term + [e];
  }

  lemma TermsJoined(e: Element, stack: seq<Fork>)
    requires 2 <= |stack|
    ensures Terms(stack[..|stack| - 2] + [Joined(stack[|stack| - 2], stack[|stack| - 1], e)]) == Terms(stack) + [e]
  {
    hide Terms;
    var n := |stack|;
    var rest, a, b := stack[..n - 2], stack[n - 2], stack[n - 1];
    TermsSnoc(rest, Joined(a, b, e));
    TermsSnoc(rest, a);
    TermsSnoc(rest + [a], b);
    LastTwo(stack);
    TermsRegrouped(Terms(rest), a.term, b.term, [e]);
  }

  lemma LastTwo(stack: seq<Fork>)
    requires 2 <= |stack|
    ensures stack == stack[..|stack| - 2] + [stack[|stack| - 2]] + [stack[|stack| - 1]]
  {
  }

  lemma TermsRegrouped(a: Program, b: Program, c: Program, d: Program)
    ensures a + (b + c + d) == a + b + c + d
  {
  }

  lemma AlikeStep(e: Element, stack: seq<Fork>)
    requires e.Arity() <= |stack| && AlikeForks(stack)
    ensures AlikeForks(ForkStep(e, stack))
  {
    hide Alike, Read;
    var n := |stack|;
    AlikeSelf(e);
    match e
    case Not =>
      AlikeConcat(stack[n - 1].term, [e], stack[n - 1].low, [e]);
      AlikeConcat(stack[n - 1].term, [e], stack[n - 1].high, [e]);
    case And => AlikeJoined(stack[n - 2], stack[n - 1], e);
    case Or => AlikeJoined(stack[n - 2], stack[n - 1], e);
    case _ =>
      ReadIsAlike(e, false);
      ReadIsAlike(e, true);
  }

  lemma AlikeJoined(a: Fork, b: Fork, e: Element)
    requires AlikeFork(a) && AlikeFork(b)
    ensures AlikeFork(Joined(a, b, e))
  {
    hide Alike;
    AlikeSelf(e);
    AlikeConcat(a.term, b.term, a.low, b.low);
    AlikeConcat(a.term + b.term, [e], a.low + b.low, [e]);
    AlikeConcat(a.term, b.term, a.high, b.high);
    AlikeConcat(a.term + b.term, [e], a.high + b.high, [e]);
  }

  lemma {:induction false} ForksAlike(rpn: Program)
    requires Runs(rpn, 0)
    ensures AlikeForks(ForkRun(rpn)) && Terms(ForkRun(rpn)) == rpn
    decreases |rpn|
  {
    hide AlikeForks, ForkStep, Terms;
    if rpn == [] {
      NoForks();
    } else {
      var init, e := rpn[..|rpn| - 1], rpn[|rpn| - 1];
      ForksAlike(init);
      AlikeStep(e, ForkRun(init));
      TermsStep(e, ForkRun(init));
    }
  }

  lemma NoForks()
    ensures AlikeForks([]) && Terms([]) == []
  {
  }

  lemma ReadingAlike(rpn: Program, high: bool)
    requires WellFormed(rpn)
    ensures Alike(rpn, Reading(rpn, high)) && WellFormed(Reading(rpn, high))
  {
    var stack := ForkRun(rpn);
    ForksAlike(rpn);
    assert stack[..0] == [];
    assert rpn == [] + stack[0].term == stack[0].term;
    AlikeHeight(rpn, Reading(rpn, high), 0);
  }

  /** Both readings of a condition are alike to it. */
  lemma ReadingIsAlike(rpn: Program, high: bool, n: nat)
    requires WellFormed(rpn) && ValidProgram(rpn, n)
    ensures Alike(rpn, Reading(rpn, high)) && WellFormed(Reading(rpn, high)) && ValidProgram(Reading(rpn, high), n)
  {
    ReadingAlike(rpn, high);
    AlikeValid(rpn, Reading(rpn, high), n);
  }

  // ---- every alike program lies between them ----

  ghost predicate Encloses(f: Fork, truth: bool, x: Key) {
    && WellFormed(f.low) && ValidProgram(f.low, |x|) && WellFormed(f.high) && ValidProgram(f.high, |x|)
    && (Holds(f.low, x) ==> truth) && (truth ==> Holds(f.high, x))
  }

  ghost predicate Enclosed(stack: seq<Fork>, truths: seq<bool>, x: Key) {
    |stack| == |truths| && forall i :: 0 <= i < |stack| ==> Encloses(stack[i], truths[i], x)
  }

  lemma ReplaceTop(stack: seq<Fork>, truths: seq<bool>, x: Key, keep: nat, f: Fork, truth: bool)
    requires Enclosed(stack, truths, x) && keep <= |stack| && Encloses(f, truth, x)
    ensures Enclosed(stack[..keep] + [f], truths[..keep] + [truth], x)
  {
    hide Encloses;
  }

  lemma EncloseStep(e: Element, f: Element, stack: seq<Fork>, truths: seq<bool>, x: Key)
    requires e.Arity() <= |stack| && e.Valid(|x|) && AlikeElement(e, f) && Enclosed(stack, truths, x)
    ensures f.Arity() == e.Arity() && f.Valid(|x|) && Enclosed(ForkStep(e, stack), Step(f, x, truths), x)
  {
    AlikeKeeps(e, f, |x|);
    SameLength(stack, truths, x);
    hide AlikeElement, Element.Valid, Element.Truth, Encloses, Enclosed, ForkStep, Step;
    if e.Arity() == 0 {
      EncloseAtomStep(e, f, stack, truths, x);
    } else if e.Not? {
      EncloseNotStep(stack, truths, x);
    } else {
      EncloseBinaryStep(e, stack, truths, x);
    }
  }

  lemma EncloseAtomStep(e: Element, f: Element, stack: seq<Fork>, truths: seq<bool>, x: Key)
    requires e.Arity() == 0 && e.Valid(|x|) && AlikeElement(e, f) && Enclosed(stack, truths, x)
    requires f.Arity() == 0 && f.Valid(|x|)
    ensures Enclosed(ForkStep(e, stack), Step(f, x, truths), x)
  {
    hide AlikeElement, Element.Valid, Element.Truth, Encloses, Enclosed, Read;
    SameLength(stack, truths, x);
    EncloseAtom(e, f, x);
    ReplaceTop(stack, truths, x, |stack|, Fork([e], [Read(e, false)], [Read(e, true)]), f.Truth(x));
    assert stack[..|stack|] == stack && truths[..|truths|] == truths;
  }

  lemma EncloseNotStep(stack: seq<Fork>, truths: seq<bool>, x: Key)
    requires 1 <= |stack| == |truths| && Enclosed(stack, truths, x)
    ensures Enclosed(ForkStep(Not, stack), Step(Not, x, truths), x)
  {
    hide Encloses, Enclosed, Negated;
    SameLength(stack, truths, x);
    var n := |stack|;
    EncloseNot(stack[n - 1], truths[n - 1], x);
    ReplaceTop(stack, truths, x, n - 1, Negated(stack[n - 1], Not), !truths[n - 1]);
  }

  lemma EncloseBinaryStep(e: Element, stack: seq<Fork>, truths: seq<bool>, x: Key)
    requires (e.And? || e.Or?) && 2 <= |stack| == |truths| && Enclosed(stack, truths, x)
    ensures Enclosed(ForkStep(e, stack), Step(e, x, truths), x)
  {
    hide Encloses, Enclosed, Joined;
    SameLength(stack, truths, x);
    var n := |stack|;
    var s, t := truths[n - 2], truths[n - 1];
    EncloseJoined(stack[n - 2], stack[n - 1], e, s, t, x);
    ReplaceTop(stack, truths, x, n - 2, Joined(stack[n - 2], stack[n - 1], e), if e.And? then s && t else s || t);
  }

  lemma SameLength(stack: seq<Fork>, truths: seq<bool>, x: Key)
    requires Enclosed(stack, truths, x)
    ensures |stack| == |truths| && forall i :: 0 <= i < |stack| ==> Encloses(stack[i], truths[i], x)
  {
  }

  lemma EncloseNot(f: Fork, truth: bool, x: Key)
    requires Encloses(f, truth, x)
    ensures Encloses(Negated(f, Not), !truth, x)
  {
    NotTerm(f.low, x);
    NotTerm(f.high, x);
  }

  lemma EncloseJoined(a: Fork, b: Fork, e: Element, s: bool, t: bool, x: Key)
    requires (e.And? || e.Or?) && Encloses(a, s, x) && Encloses(b, t, x)
    ensures Encloses(Joined(a, b, e), if e.And? then s && t else s || t, x)
  {
    BinaryTerm(a.low, b.low, e, x);
    BinaryTerm(a.high, b.high, e, x);
  }

  lemma EncloseAtom(e: Element, f: Element, x: Key)
    requires e.Arity() == 0 && e.Valid(|x|) && AlikeElement(e, f)
    ensures f.Arity() == 0 && f.Valid(|x|) && Encloses(Fork([e], [Read(e, false)], [Read(e, true)]), f.Truth(x), x)
  {
    ReadBounds(e, f, x);
    AtomTerm(Read(e, false), x);
    AtomTerm(Read(e, true), x);
  }

  lemma {:induction false} ForksEnclose(rpn: Program, other: Program, x: Key)
    requires Runs(rpn, 0) && ValidProgram(rpn, |x|) && Alike(rpn, other)
    ensures Runs(other, 0) && ValidProgram(other, |x|)
    ensures Enclosed(ForkRun(rpn), Run(other, x, []), x)
    decreases |rpn|
  {
    hide AlikeElement, Element.Valid, Enclosed, ForkStep, Step;
    AlikeHeight(rpn, other, 0);
    AlikeValid(rpn, other, |x|);
    if rpn == [] {
      NothingEnclosed(x);
    } else {
      var last := |rpn| - 1;
      ForksEnclose(rpn[..last], other[..last], x);
      EncloseStep(rpn[last], other[last], ForkRun(rpn[..last]), Run(other[..last], x, []), x);
    }
  }

  lemma NothingEnclosed(x: Key)
    ensures Enclosed([], [], x)
  {
  }

  /** An alike condition that is satisfied at this key. */
  ghost predicate AlikeHolds(rpn: Program, other: Program, x: Key) {
    Alike(rpn, other) && WellFormed(other) && ValidProgram(other, |x|) && Holds(other, x)
  }

  /** Every alike condition holds where the least favourable reading does, and only where the most favourable one does. */
  lemma ReadingBounds(rpn: Program, other: Program, x: Key)
    requires WellFormed(rpn) && ValidProgram(rpn, |x|) && Alike(rpn, other)
    ensures WellFormed(Reading(rpn, false)) && ValidProgram(Reading(rpn, false), |x|)
    ensures WellFormed(Reading(rpn, true)) && ValidProgram(Reading(rpn, true), |x|)
    ensures WellFormed(other) && ValidProgram(other, |x|)
    ensures Holds(Reading(rpn, false), x) ==> Holds(other, x)
    ensures Holds(other, x) ==> Holds(Reading(rpn, true), x)
  {
    ForksEnclose(rpn, other, x);
    AlikeHeight(rpn, other, 0);
    assert Encloses(ForkRun(rpn)[0], Run(other, x, [])[0], x);
  }

  /** The reading of the condition holds at this key. */
  ghost predicate ReadingHolds(rpn: Program, high: bool, x: Key)
    requires WellFormed(rpn) && ValidProgram(rpn, |x|)
  {
    ReadingIsAlike(rpn, high, |x|);
    Holds(Reading(rpn, high), x)
  }

  /**
   * An answer that is the same for all alike conditions is implied by each of them exactly if the most favourable reading
   * implies it, and implies each of them exactly if it implies the least favourable one.
   */
  lemma AnswerExact(rpn: Program, x: Key, answer: bool)
    requires WellFormed(rpn) && ValidProgram(rpn, |x|)
    ensures (forall other :: AlikeHolds(rpn, other, x) ==> answer) <==> (ReadingHolds(rpn, true, x) ==> answer)
    ensures (forall other :: Alike(rpn, other) && answer ==> AlikeHolds(rpn, other, x)) <==> (answer ==> ReadingHolds(rpn, false, x))
  {
    hide Alike, WellFormed, ValidProgram, Reading, Holds;
    ReadingIsAlike(rpn, true, |x|);
    ReadingIsAlike(rpn, false, |x|);
    assert ReadingHolds(rpn, true, x) ==> AlikeHolds(rpn, Reading(rpn, true), x);
    assert AlikeHolds(rpn, Reading(rpn, false), x) ==> ReadingHolds(rpn, false, x);
    forall other | Alike(rpn, other)
      ensures AlikeHolds(rpn, other, x) ==> ReadingHolds(rpn, true, x)
      ensures ReadingHolds(rpn, false, x) ==> AlikeHolds(rpn, other, x)
    {
      ReadingBounds(rpn, other, x);
    }
  }

  // ---- conjunct by conjunct ----

  lemma {:induction false} AlikeTracks(rpn: Program, other: Program)
    requires Runs(rpn, 0) && Alike(rpn, other)
    ensures Runs(other, 0) && TrackRun(other) == TrackRun(rpn)
    decreases |rpn|
  {
    hide AlikeElement;
    AlikeHeight(rpn, other, 0);
    if rpn != [] {
      var last := |rpn| - 1;
      AlikeTracks(rpn[..last], other[..last]);
      AlikeKeeps(rpn[last], other[last], 0);
      SameTrack(TrackRun(rpn[..last]), rpn[last], other[last], last);
    }
  }

  lemma SameTrack(stack: seq<ValueInfo>, e: Element, f: Element, i: nat)
    requires e.Arity() <= |stack| && f.Arity() == e.Arity() && (e.Arity() > 0 ==> f == e)
    ensures TrackStep(stack, f, i) == TrackStep(stack, e, i)
  {
  }

  /** Alike conditions have the same conjuncts. */
  lemma AlikeSplits(rpn: Program, other: Program, n: nat)
    requires WellFormed(rpn) && ValidProgram(rpn, n) && Alike(rpn, other)
    ensures WellFormed(other) && ValidProgram(other, n) && Splits(other, Slice(0, |rpn|), TopConjuncts(rpn), n)
  {
    hide Splits;
    AlikeHeight(rpn, other, 0);
    AlikeValid(rpn, other, n);
    AlikeTracks(rpn, other);
    TopConjunctsSplit(other, n);
  }

  lemma AlikeConjuncts(rpn: Program, other: Program, x: Key)
    requires WellFormed(rpn) && ValidProgram(rpn, |x|) && Alike(rpn, other)
    ensures WellFormed(other) && ValidProgram(other, |x|)
    ensures Holds(other, x) <==> AllHold(other, TopConjuncts(rpn), x)
  {
    hide AllHold, WellFormed;
    AlikeSplits(rpn, other, |x|);
    assert other[0..|rpn|] == other;
    assert SliceHolds(other, Slice(0, |rpn|), x) <==> AllHold(other, TopConjuncts(rpn), x);
  }

  ghost predicate SliceReadingHolds(rpn: Program, s: Slice, high: bool, x: Key)
    requires ValidProgram(rpn, |x|)
  {
    IsTerm(rpn, s) && (SliceValid(rpn, s, |x|); ReadingHolds(rpn[s.start..s.end], high, x))
  }

  /** The slice that holds position `i`. */
  function Owner(slices: seq<Slice>, i: nat): (owner: Option<nat>)
    ensures owner.Some? ==> owner.value < |slices| && slices[owner.value].start <= i < slices[owner.value].end
    ensures owner.None? ==> forall j :: 0 <= j < |slices| ==> !(slices[j].start <= i < slices[j].end)
  {
    if slices == [] then None
    else
      var last := |slices| - 1;
      if slices[last].start <= i < slices[last].end then Some(last) else Owner(slices[..last], i)
  }

  /** Position `i` of the program in which each of the slices is replaced by its reading. */
  function PatchedAt(rpn: Program, slices: seq<Slice>, high: bool, i: nat): Element
    requires i < |rpn| && forall j :: 0 <= j < |slices| ==> IsTerm(rpn, slices[j])
  {
    match Owner(slices, i)
    case None => rpn[i]
    case Some(j) =>
      var s := slices[j];
      assert IsTerm(rpn, s);
      ReadingAlike(rpn[s.start..s.end], high);
      Reading(rpn[s.start..s.end], high)[i - s.start]
  }

  function Patched(rpn: Program, slices: seq<Slice>, high: bool): (patched: Program)
    requires forall j :: 0 <= j < |slices| ==> IsTerm(rpn, slices[j])
    ensures |patched| == |rpn| && forall i :: 0 <= i < |rpn| ==> patched[i] == PatchedAt(rpn, slices, high, i)
  {
    seq(|rpn|, i requires 0 <= i < |rpn| => PatchedAt(rpn, slices, high, i))
  }

  lemma PatchedAlike(rpn: Program, slices: seq<Slice>, high: bool)
    requires forall j :: 0 <= j < |slices| ==> IsTerm(rpn, slices[j])
    ensures Alike(rpn, Patched(rpn, slices, high))
  {
    hide Reading, WellFormed;
    forall i | 0 <= i < |rpn| ensures AlikeElement(rpn[i], PatchedAt(rpn, slices, high, i)) {
      match Owner(slices, i)
      case None => ElementAlike(rpn[i]);
      case Some(j) =>
        assert IsTerm(rpn, slices[j]);
        ReadingAlike(rpn[slices[j].start..slices[j].end], high);
    }
  }

  lemma ElementAlike(e: Element)
    ensures AlikeElement(e, e)
  {
  }

  lemma PatchedSlice(rpn: Program, slices: seq<Slice>, high: bool, j: nat)
    requires Disjoint(slices) && j < |slices| && forall j :: 0 <= j < |slices| ==> IsTerm(rpn, slices[j])
    ensures Patched(rpn, slices, high)[slices[j].start..slices[j].end] == Reading(rpn[slices[j].start..slices[j].end], high)
  {
    hide Reading, WellFormed;
    var s := slices[j];
    ReadingAlike(rpn[s.start..s.end], high);
    forall i | s.start <= i < s.end
      ensures PatchedAt(rpn, slices, high, i) == Reading(rpn[s.start..s.end], high)[i - s.start]
    {
      assert Owner(slices, i).Some? && Owner(slices, i).value == j;
    }
  }

  /** A condition reads favourably exactly where all of its conjuncts do, taken one by one, and so for the other reading. */
  lemma ConjunctsReading(rpn: Program, high: bool, x: Key)
    requires WellFormed(rpn) && ValidProgram(rpn, |x|)
    ensures ReadingHolds(rpn, high, x)
       <==> forall j :: 0 <= j < |TopConjuncts(rpn)| ==> SliceReadingHolds(rpn, TopConjuncts(rpn)[j], high, x)
  {
    hide Alike, WellFormed, ValidProgram, Reading, TopConjuncts, Patched;
    var slices := TopConjuncts(rpn);
    ConjunctTerms(rpn, |x|);
    var patched, whole := Patched(rpn, slices, high), Reading(rpn, high);
    PatchedAlike(rpn, slices, high);
    AlikeConjuncts(rpn, patched, x);
    ReadingIsAlike(rpn, high, |x|);
    AlikeConjuncts(rpn, whole, x);
    ReadingBounds(rpn, patched, x);
    forall j | 0 <= j < |slices|
      ensures SliceHolds(patched, slices[j], x) <==> SliceReadingHolds(rpn, slices[j], high, x)
      ensures high ==> (SliceHolds(whole, slices[j], x) ==> SliceReadingHolds(rpn, slices[j], high, x))
      ensures !high ==> (SliceReadingHolds(rpn, slices[j], high, x) ==> SliceHolds(whole, slices[j], x))
    {
      PatchedSlice(rpn, slices, high, j);
      PatchedHolds(rpn, slices[j], patched, high, x);
      SliceBounds(rpn, slices[j], whole, x);
    }
  }

  lemma ConjunctTerms(rpn: Program, n: nat)
    requires WellFormed(rpn) && ValidProgram(rpn, n)
    ensures Disjoint(TopConjuncts(rpn)) && forall j :: 0 <= j < |TopConjuncts(rpn)| ==> IsTerm(rpn, TopConjuncts(rpn)[j])
  {
    hide IsTerm, TopConjuncts;
    TopConjunctsSplit(rpn, n);
    forall j | 0 <= j < |TopConjuncts(rpn)| ensures IsTerm(rpn, TopConjuncts(rpn)[j]) {
      assert Conjunct(rpn, Slice(0, |rpn|), TopConjuncts(rpn)[j]);
    }
  }

  lemma PatchedHolds(rpn: Program, s: Slice, patched: Program, high: bool, x: Key)
    requires ValidProgram(rpn, |x|) && IsTerm(rpn, s) && |patched| == |rpn| && ValidProgram(patched, |x|)
    requires patched[s.start..s.end] == Reading(rpn[s.start..s.end], high)
    ensures SliceHolds(patched, s, x) <==> SliceReadingHolds(rpn, s, high, x)
  {
    SliceValid(rpn, s, |x|);
    ReadingIsAlike(rpn[s.start..s.end], high, |x|);
  }

  lemma SliceBounds(rpn: Program, s: Slice, other: Program, x: Key)
    requires ValidProgram(rpn, |x|) && IsTerm(rpn, s) && Alike(rpn, other) && ValidProgram(other, |x|)
    ensures SliceHolds(other, s, x) ==> SliceReadingHolds(rpn, s, true, x)
    ensures SliceReadingHolds(rpn, s, false, x) ==> SliceHolds(other, s, x)
  {
    hide Reading, Holds, WellFormed;
    SliceValid(rpn, s, |x|);
    SliceAlike(rpn, other, s);
    ReadingBounds(rpn[s.start..s.end], other[s.start..s.end], x);
  }

  lemma SliceAlike(rpn: Program, other: Program, s: Slice)
    requires Alike(rpn, other) && s.start <= s.end <= |rpn|
    ensures Alike(rpn[s.start..s.end], other[s.start..s.end])
  {
  }
}
