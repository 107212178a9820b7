/** Splitting a lexicographic interval of key tuples into boxes (forAnyHyperrectangle). */
module Hyperrectangles {
  import opened BoolMasks
  import opened Ranges

  /** `left <= x` in lexicographic order, looking at components from `i` on. */
  ghost predicate AtLeast(left: seq<Endpoint>, x: Key, i: nat)
    requires |left| == |x| && i <= |x|
    decreases |x| - i
  {
    i == |x| || Less(left[i], Fin(x[i])) || (left[i] == Fin(x[i]) && AtLeast(left, x, i + 1))
  }

  /** `x <= right` in lexicographic order, looking at components from `i` on. */
  ghost predicate AtMost(right: seq<Endpoint>, x: Key, i: nat)
    requires |right| == |x| && i <= |x|
    decreases |x| - i
  {
    i == |x| || Less(Fin(x[i]), right[i]) || (right[i] == Fin(x[i]) && AtMost(right, x, i + 1))
  }

  /** `left <= right` for two bounds. */
  ghost predicate Ordered(left: seq<Endpoint>, right: seq<Endpoint>, i: nat)
    requires |left| == |right| && i <= |left|
    decreases |left| - i
  {
    i == |left| || Less(left[i], right[i]) || (left[i] == right[i] && Ordered(left, right, i + 1))
  }

  ghost predicate InInterval(left: seq<Endpoint>, right: seq<Endpoint>, x: Key) {
    |left| == |right| == |x| && AtLeast(left, x, 0) && AtMost(right, x, 0)
  }

  /** The range of one component when the interval is cut open there. */
  function Side(left: Endpoint, right: Endpoint, leftBounded: bool, rightBounded: bool, included: bool): Range
    requires leftBounded || rightBounded
  {
    if leftBounded && rightBounded then Range(left, included, right, included)
    else if leftBounded then LeftBounded(left, included)
    else RightBounded(right, included)
  }

  /** The open box: cut open in component `p`, unconstrained behind it. */
  function Middle(left: seq<Endpoint>, right: seq<Endpoint>, lb: bool, rb: bool, box: Box, p: nat): Box
    requires |left| == |right| == |box| && p < |box|
    requires lb || rb
  {
    box[..p] + [Side(left[p], right[p], lb, rb, false)] + UniverseBox(|box| - p - 1)
  }

  /** Every box, in the order in which they are visited when nothing exits early. */
  function Boxes(
      left: seq<Endpoint>, right: seq<Endpoint>, leftBounded: bool, rightBounded: bool, box: Box, prefix: nat)
    : seq<Box>
    requires |left| == |right| == |box| && prefix <= |box|
    decreases |box| - prefix
  {
    if (!leftBounded && !rightBounded) || prefix == |box| then
      [box]
    else if leftBounded && rightBounded && left[prefix] == right[prefix] then
      Boxes(left, right, true, true, box[prefix := Point(left[prefix])], prefix + 1)
    else if prefix + 1 == |box| then
      [box[prefix := Side(left[prefix], right[prefix], leftBounded, rightBounded, true)]]
    else
      [Middle(left, right, leftBounded, rightBounded, box, prefix)]
      + (if leftBounded then Boxes(left, right, true, false, box[prefix := Point(left[prefix])], prefix + 1) else [])
      + (if rightBounded then Boxes(left, right, false, true, box[prefix := Point(right[prefix])], prefix + 1) else [])
  }

  /** In how many of the boxes a tuple lies. */
  ghost function Count(boxes: seq<Box>, x: Key): nat {
    if boxes == [] then 0 else (if InBox(boxes[0], x) then 1 else 0) + Count(boxes[1..], x)
  }

  lemma {:induction false} CountConcat(a: seq<Box>, b: seq<Box>, x: Key)
    ensures Count(a + b, x) == Count(a, x) + Count(b, x)
  {
    if a == [] {
      assert a + b == b;
    } else {
      assert (a + b)[1..] == a[1..] + b;
      CountConcat(a[1..], b, x);
    }
  }

  ghost predicate PrefixHas(box: Box, x: Key, prefix: nat)
    requires |box| == |x| && prefix <= |x|
  {
    forall i :: 0 <= i < prefix ==> box[i].Has(x[i])
  }

  /** The boxes partition the interval: a tuple lies in exactly one box when it is inside the interval
      (and inside the components already fixed), and in none otherwise. */
  lemma {:induction false} BoxesPartitionFrom(
    left: seq<Endpoint>, right: seq<Endpoint>, lb: bool, rb: bool, box: Box, p: nat, x: Key)
    requires |left| == |right| == |box| == |x| && p <= |box|
    requires lb || rb
    requires lb && rb ==> Ordered(left, right, p)
    ensures Count(Boxes(left, right, lb, rb, box, p), x)
         == if PrefixHas(box, x, p) && (lb ==> AtLeast(left, x, p)) && (rb ==> AtMost(right, x, p)) then 1 else 0
    decreases |box| - p
  {
    var boxes := Boxes(left, right, lb, rb, box, p);
    if p == |box| {
      assert boxes == [box];
      assert Count(boxes, x) == (if InBox(box, x) then 1 else 0);
    } else if lb && rb && left[p] == right[p] {
      var box' := box[p := Point(left[p])];
      BoxesPartitionFrom(left, right, true, true, box', p + 1, x);
      PrefixExtends(box, box', x, p);
    } else if p + 1 == |box| {
      var box' := box[p := Side(left[p], right[p], lb, rb, true)];
      assert boxes == [box'];
      assert Count(boxes, x) == (if InBox(box', x) then 1 else 0);
      PrefixExtends(box, box', x, p);
      assert InBox(box', x) <==> PrefixHas(box', x, p + 1);
    } else {
      MiddleAndSides(left, right, lb, rb, box, p, x);
    }
  }

  lemma PrefixExtends(box: Box, box': Box, x: Key, p: nat)
    requires |box| == |box'| == |x| && p < |x|
    requires box'[..p] == box[..p]
    ensures PrefixHas(box', x, p + 1) <==> PrefixHas(box, x, p) && box'[p].Has(x[p])
  {
    assert forall i :: 0 <= i < p ==> box'[i] == box'[..p][i] == box[..p][i] == box[i];
  }

  lemma {:induction false} CountSplit(
    left: seq<Endpoint>, right: seq<Endpoint>, lb: bool, rb: bool, box: Box, p: nat, x: Key)
    requires |left| == |right| == |box| == |x| && p + 1 < |box|
    requires lb || rb
    requires lb && rb ==> left[p] != right[p]
    ensures Count(Boxes(left, right, lb, rb, box, p), x)
         == (if InBox(Middle(left, right, lb, rb, box, p), x) then 1 else 0)
          + (if lb then Count(Boxes(left, right, true, false, box[p := Point(left[p])], p + 1), x) else 0)
          + (if rb then Count(Boxes(left, right, false, true, box[p := Point(right[p])], p + 1), x) else 0)
  {
    var middle := Middle(left, right, lb, rb, box, p);
    var l := if lb then Boxes(left, right, true, false, box[p := Point(left[p])], p + 1) else [];
    var r := if rb then Boxes(left, right, false, true, box[p := Point(right[p])], p + 1) else [];
    assert Boxes(left, right, lb, rb, box, p) == [middle] + l + r;
    CountConcat([middle] + l, r, x);
    CountConcat([middle], l, x);
    assert Count([middle], x) == (if InBox(middle, x) then 1 else 0);
  }

  lemma {:induction false} MiddleAndSides(
    left: seq<Endpoint>, right: seq<Endpoint>, lb: bool, rb: bool, box: Box, p: nat, x: Key)
    requires |left| == |right| == |box| == |x| && p + 1 < |box|
    requires lb || rb
    requires lb && rb ==> Ordered(left, right, p) && left[p] != right[p]
    ensures Count(Boxes(left, right, lb, rb, box, p), x)
         == if PrefixHas(box, x, p) && (lb ==> AtLeast(left, x, p)) && (rb ==> AtMost(right, x, p)) then 1 else 0
    decreases |box| - p, 0
  {
    var boxL, boxR := box[p := Point(left[p])], box[p := Point(right[p])];
    CountSplit(left, right, lb, rb, box, p, x);
    if lb {
      BoxesPartitionFrom(left, right, true, false, boxL, p + 1, x);
      PrefixExtends(box, boxL, x, p);
    }
    if rb {
      BoxesPartitionFrom(left, right, false, true, boxR, p + 1, x);
      PrefixExtends(box, boxR, x, p);
    }
  }

  /** For every key size, each tuple of the interval lies in exactly one box and no box holds a tuple outside it. */
  lemma BoxesPartitionInterval(left: seq<Endpoint>, right: seq<Endpoint>, x: Key)
    requires |left| == |right| == |x|
    requires Ordered(left, right, 0)
    ensures Count(Boxes(left, right, true, true, UniverseBox(|x|), 0), x) == if InInterval(left, right, x) then 1 else 0
  {
    BoxesPartitionFrom(left, right, true, true, UniverseBox(|x|), 0, x);
  }

  /** What lies behind the fixed components never shows: this is why one shared box may be overwritten in place. */
  lemma {:induction false} BoxesIgnoreRest(
    left: seq<Endpoint>, right: seq<Endpoint>, lb: bool, rb: bool, a: Box, b: Box, p: nat)
    requires |left| == |right| == |a| == |b| && p <= |a|
    requires lb || rb
    requires a[..p] == b[..p]
    ensures Boxes(left, right, lb, rb, a, p) == Boxes(left, right, lb, rb, b, p)
    decreases |a| - p
  {
    hide Middle, Side;
    if p == |a| {
      assert a == a[..p] == b[..p] == b;
    } else {
      MiddleIgnoresRest(left, right, lb, rb, a, b, p);
      SamePrefix(a, b, p, Point(left[p]));
      SamePrefix(a, b, p, Point(right[p]));
      if p + 1 == |a| {
        SamePrefix(a, b, p, Side(left[p], right[p], lb, rb, true));
        assert forall c: Box | |c| == |a| :: c[..p + 1] == c;
      }
      BoxesIgnoreRest(left, right, true, true, a[p := Point(left[p])], b[p := Point(left[p])], p + 1);
      BoxesIgnoreRest(left, right, true, false, a[p := Point(left[p])], b[p := Point(left[p])], p + 1);
      BoxesIgnoreRest(left, right, false, true, a[p := Point(right[p])], b[p := Point(right[p])], p + 1);
    }
  }

  lemma MiddleIgnoresRest(left: seq<Endpoint>, right: seq<Endpoint>, lb: bool, rb: bool, a: Box, b: Box, p: nat)
    requires |left| == |right| == |a| == |b| && p < |a| && a[..p] == b[..p]
    requires lb || rb
    ensures Middle(left, right, lb, rb, a, p) == Middle(left, right, lb, rb, b, p)
  {
    assert forall i :: 0 <= i < p ==> a[i] == a[..p][i] == b[..p][i] == b[i];
  }

  lemma SamePrefix(a: Box, b: Box, p: nat, r: Range)
    requires |a| == |b| && p < |a| && a[..p] == b[..p]
    ensures a[p := r][..p + 1] == b[p := r][..p + 1]
  {
    assert a[p := r][..p + 1] == a[..p] + [r];
    assert b[p := r][..p + 1] == b[..p] + [r];
  }

  /** The answers for all boxes combined, without masks and early exits. */
  function CombineAll(callback: Box -> BoolMask, boxes: seq<Box>): BoolMask {
    if boxes == [] then BoolMask(false, false) else Combine(callback(boxes[0]), CombineAll(callback, boxes[1..]))
  }

  lemma {:induction false} CombineAllConcat(callback: Box -> BoolMask, a: seq<Box>, b: seq<Box>)
    ensures CombineAll(callback, a + b) == Combine(CombineAll(callback, a), CombineAll(callback, b))
  {
    if a == [] {
      assert a + b == b;
    } else {
      assert (a + b)[1..] == a[1..] + b;
      CombineAllConcat(callback, a[1..], b);
    }
  }

  /** `result` is right about every component that `initialMask` asks for. */
  predicate AgreesWhereAsked(result: BoolMask, full: BoolMask, initialMask: BoolMask) {
    && (!initialMask.canBeTrue ==> result.canBeTrue == full.canBeTrue)
    && (!initialMask.canBeFalse ==> result.canBeFalse == full.canBeFalse)
  }

  /** The answer for this box leaves nothing open. */
  predicate Settles(box: Box, initialMask: BoolMask, callback: Box -> BoolMask) {
    Combine(initialMask, callback(box)).IsComplete()
  }

  /** No box was visited after one that settles everything. */
  ghost predicate Prompt(result: BoolMask, visited: seq<Box>, initialMask: BoolMask, callback: Box -> BoolMask) {
    && (forall i :: 0 <= i < |visited| - 1 ==> !Settles(visited[i], initialMask, callback))
    && (forall i :: 0 <= i < |visited| && Settles(visited[i], initialMask, callback) ==> Combine(initialMask, result).IsComplete())
  }

  lemma PromptOne(box: Box, result: BoolMask, initialMask: BoolMask, callback: Box -> BoolMask)
    requires result == callback(box) || result == Combine(initialMask, callback(box))
    ensures Prompt(result, [box], initialMask, callback)
  {
  }

  lemma PromptMore(
    result: BoolMask, visited: seq<Box>, sub: BoolMask, seen: seq<Box>, initialMask: BoolMask, callback: Box -> BoolMask)
    requires Prompt(result, visited, initialMask, callback) && Prompt(sub, seen, initialMask, callback)
    requires !Combine(initialMask, result).IsComplete()
    ensures Prompt(Combine(result, sub), visited + seen, initialMask, callback)
  {
    hide Settles;
    var all := visited + seen;
    forall i | 0 <= i < |all|
      ensures Settles(all[i], initialMask, callback) ==> i >= |visited| && Settles(seen[i - |visited|], initialMask, callback)
    {
    }
  }

  /** What a visit of `boxes` may answer: the callback saw a prefix of them, all of them unless the mask is complete, none
      after a box that settles everything, and the combined answer is right wherever the mask asks. */
  ghost predicate Answers(
    result: BoolMask, visited: seq<Box>, boxes: seq<Box>, initialMask: BoolMask, callback: Box -> BoolMask)
  {
    && AgreesWhereAsked(result, CombineAll(callback, boxes), initialMask)
    && visited <= boxes
    && (visited == boxes || result.IsComplete())
    && Prompt(result, visited, initialMask, callback)
  }

  method SetComponent(hyperrectangle: array<Range>, p: nat, range: Range)
    requires p < hyperrectangle.Length
    modifies hyperrectangle
    ensures hyperrectangle[..] == old(hyperrectangle[..])[p := range]
  {
    hyperrectangle[p] := range;
  }

  /** Fix the leading components in which the two bounds agree. */
  method SkipEqual(left: seq<Endpoint>, right: seq<Endpoint>, hyperrectangle: array<Range>, prefix: nat)
    returns (p: nat)
    requires |left| == |right| == hyperrectangle.Length && prefix <= |left|
    modifies hyperrectangle
    ensures prefix <= p <= |left| && (p < |left| ==> left[p] != right[p])
    ensures hyperrectangle[..prefix] == old(hyperrectangle[..prefix])
    ensures Boxes(left, right, true, true, hyperrectangle[..], p)
         == Boxes(left, right, true, true, old(hyperrectangle[..]), prefix)
  {
    p := prefix;
    while p < |left| && left[p] == right[p]
      invariant prefix <= p <= |left|
      invariant hyperrectangle[..prefix] == old(hyperrectangle[..prefix])
      invariant Boxes(left, right, true, true, hyperrectangle[..], p)
             == Boxes(left, right, true, true, old(hyperrectangle[..]), prefix)
    {
      SetComponent(hyperrectangle, p, Point(left[p]));
      p := p + 1;
    }
  }

  /** Cut component `p` open and free every component behind it. */
  method OpenMiddle(
    left: seq<Endpoint>, right: seq<Endpoint>, lb: bool, rb: bool, hyperrectangle: array<Range>, p: nat)
    requires |left| == |right| == hyperrectangle.Length && p < |left|
    requires lb || rb
    modifies hyperrectangle
    ensures hyperrectangle[..] == Middle(left, right, lb, rb, old(hyperrectangle[..]), p)
  {
    hyperrectangle[p] := Side(left[p], right[p], lb, rb, false);
    for i := p + 1 to hyperrectangle.Length
      invariant hyperrectangle[..p] == old(hyperrectangle[..p])
      invariant hyperrectangle[p] == Side(left[p], right[p], lb, rb, false)
      invariant forall j :: p < j < i ==> hyperrectangle[j] == UNIVERSE
    {
      hyperrectangle[i] := UNIVERSE;
    }
  }

  lemma BoxesSplit(
    left: seq<Endpoint>, right: seq<Endpoint>, lb: bool, rb: bool, box: Box, p: nat, callback: Box -> BoolMask)
    returns (l: seq<Box>, r: seq<Box>)
    requires |left| == |right| == |box| && p + 1 < |box|
    requires lb || rb
    requires lb && rb ==> left[p] != right[p]
    ensures l == if lb then Boxes(left, right, true, false, box[p := Point(left[p])], p + 1) else []
    ensures r == if rb then Boxes(left, right, false, true, box[p := Point(right[p])], p + 1) else []
    ensures Boxes(left, right, lb, rb, box, p) == [Middle(left, right, lb, rb, box, p)] + l + r
    ensures CombineAll(callback, Boxes(left, right, lb, rb, box, p))
         == Combine(Combine(callback(Middle(left, right, lb, rb, box, p)), CombineAll(callback, l)), CombineAll(callback, r))
  {
    var middle := Middle(left, right, lb, rb, box, p);
    l := if lb then Boxes(left, right, true, false, box[p := Point(left[p])], p + 1) else [];
    r := if rb then Boxes(left, right, false, true, box[p := Point(right[p])], p + 1) else [];
    CombineAllConcat(callback, [middle] + l, r);
    CombineAllConcat(callback, [middle], l);
    assert CombineAll(callback, [middle]) == callback(middle);
  }

  /** One of the two recursive calls: pin component `p` to a bound and recurse behind it.
      `current` is the box before component `p` was first overwritten. */
  method Descend(
    left: seq<Endpoint>, right: seq<Endpoint>, toLeft: bool,
    hyperrectangle: array<Range>, p: nat, initialMask: BoolMask, callback: Box -> BoolMask, ghost current: Box)
    returns (result: BoolMask, ghost visited: seq<Box>)
    requires |left| == |right| == hyperrectangle.Length == |current| && p + 1 < |left|
    requires hyperrectangle[..p] == current[..p]
    modifies hyperrectangle
    ensures hyperrectangle[..p] == current[..p]
    ensures var bound := if toLeft then left[p] else right[p];
            var boxes := Boxes(left, right, toLeft, !toLeft, current[p := Point(bound)], p + 1);
            Answers(result, visited, boxes, initialMask, callback)
    decreases hyperrectangle.Length - p, 0
  {
    ghost var before := hyperrectangle[..];
    var bound := if toLeft then left[p] else right[p];
    SetComponent(hyperrectangle, p, Point(bound));
    assert before[..p] == current[..p];
    SamePrefix(before, current, p, Point(bound));
    BoxesIgnoreRest(left, right, toLeft, !toLeft, hyperrectangle[..], current[p := Point(bound)], p + 1);
    result, visited := ForAnyHyperrectangle(left, right, toLeft, !toLeft, hyperrectangle, p + 1, initialMask, callback);
    assert hyperrectangle[..p] == hyperrectangle[..p + 1][..p] == current[p := Point(bound)][..p + 1][..p] == current[..p];
  }

  /** The open box first, then the two sides; leave as soon as the mask is complete. */
  method VisitOpen(
    left: seq<Endpoint>, right: seq<Endpoint>, lb: bool, rb: bool,
    hyperrectangle: array<Range>, p: nat, initialMask: BoolMask, callback: Box -> BoolMask)
    returns (result: BoolMask, ghost visited: seq<Box>)
    requires |left| == |right| == hyperrectangle.Length && p + 1 < |left|
    requires lb || rb
    requires lb && rb ==> left[p] != right[p]
    modifies hyperrectangle
    ensures hyperrectangle[..p] == old(hyperrectangle[..p])
    ensures Answers(result, visited, Boxes(left, right, lb, rb, old(hyperrectangle[..]), p), initialMask, callback)
    decreases hyperrectangle.Length - p, 1
  {
    hide Boxes, Side, Prompt;
    ghost var current := hyperrectangle[..];
    ghost var l, r := BoxesSplit(left, right, lb, rb, current, p, callback);
    OpenMiddle(left, right, lb, rb, hyperrectangle, p);
    ghost var middle := hyperrectangle[..];
    assert middle[..p] == current[..p];
    result, visited := Combine(initialMask, callback(hyperrectangle[..])), [hyperrectangle[..]];
    PromptOne(hyperrectangle[..], result, initialMask, callback);
    if result.IsComplete() {
      return;
    }
    if lb {
      var sub, seen := Descend(left, right, true, hyperrectangle, p, initialMask, callback, current);
      PromptMore(result, visited, sub, seen, initialMask, callback);
      result, visited := Combine(result, sub), visited + seen;
      if result.IsComplete() {
        return;
      }
    }
    assert visited == [middle] + l;
    if rb {
      var sub, seen := Descend(left, right, false, hyperrectangle, p, initialMask, callback, current);
      PromptMore(result, visited, sub, seen, initialMask, callback);
      result, visited := Combine(result, sub), visited + seen;
    }
  }

  /** The recursion over one shared box that is modified in place. `visited` records what the callback was given. */
  method ForAnyHyperrectangle(
    left: seq<Endpoint>, right: seq<Endpoint>, leftBounded: bool, rightBounded: bool,
    hyperrectangle: array<Range>, prefix: nat, initialMask: BoolMask, callback: Box -> BoolMask)
    returns (result: BoolMask, ghost visited: seq<Box>)
    requires |left| == |right| == hyperrectangle.Length && prefix <= |left|
    modifies hyperrectangle
    ensures hyperrectangle[..prefix] == old(hyperrectangle[..prefix])
    ensures Answers(result, visited, Boxes(left, right, leftBounded, rightBounded, old(hyperrectangle[..]), prefix),
                    initialMask, callback)
    decreases hyperrectangle.Length - prefix, 2
  {
    var n := hyperrectangle.Length;
    ghost var start := hyperrectangle[..];
    ghost var boxes := Boxes(left, right, leftBounded, rightBounded, start, prefix);
    if !leftBounded && !rightBounded {
      result, visited := callback(hyperrectangle[..]), [hyperrectangle[..]];
      return;
    }
    var p := prefix;
    if leftBounded && rightBounded {
      p := SkipEqual(left, right, hyperrectangle, prefix);
    }
    ghost var current := hyperrectangle[..];
    assert boxes == Boxes(left, right, leftBounded, rightBounded, current, p);
    assert current[..prefix] == start[..prefix];
    if p == n {
      result, visited := callback(hyperrectangle[..]), [hyperrectangle[..]];
      return;
    }
    if p + 1 == n {
      SetComponent(hyperrectangle, p, Side(left[p], right[p], leftBounded, rightBounded, true));
      result, visited := callback(hyperrectangle[..]), [hyperrectangle[..]];
      return;
    }
    result, visited := VisitOpen(left, right, leftBounded, rightBounded, hyperrectangle, p, initialMask, callback);
  }
}
