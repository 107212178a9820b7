/** One-dimensional ranges over the key domain.

    A key value is a real number: the analysis only ever compares values, and every countable
    total order embeds in the reals. The two infinities are bounds, never key values. */
module Ranges {

  datatype Endpoint = NegInf | Fin(value: real) | PosInf

  predicate Less(a: Endpoint, b: Endpoint) {
    match (a, b)
    case (Fin(x), Fin(y)) => x < y
    case (NegInf, _) => !b.NegInf?
    case (_, PosInf) => !a.PosInf?
    case _ => false
  }

  datatype Range = Range(left: Endpoint, leftIncluded: bool, right: Endpoint, rightIncluded: bool) {

    predicate Has(x: real) {
      && (Less(left, Fin(x)) || (leftIncluded && left == Fin(x)))
      && (Less(Fin(x), right) || (rightIncluded && right == Fin(x)))
    }

    predicate IntersectsRange(r: Range) {
      && !(Less(r.right, left) || ((!leftIncluded || !r.rightIncluded) && r.right == left))
      && !(Less(right, r.left) || ((!rightIncluded || !r.leftIncluded) && r.left == right))
    }

    predicate ContainsRange(r: Range) {
      && !(Less(r.left, left) || (r.leftIncluded && !leftIncluded && r.left == left))
      && !(Less(right, r.right) || (r.rightIncluded && !rightIncluded && r.right == right))
    }

    /** Swap the ends; an infinity that would land on the wrong side changes its sign. */
    function Invert(): Range {
      Range(
        if right.PosInf? then NegInf else right, rightIncluded,
        if left.NegInf? then PosInf else left, leftIncluded)
    }
  }

  function Point(e: Endpoint): Range {
    Range(e, true, e, true)
  }

  function LeftBounded(e: Endpoint, included: bool): Range {
    Range(e, included, PosInf, false)
  }

  function RightBounded(e: Endpoint, included: bool): Range {
    Range(NegInf, false, e, included)
  }

  const UNIVERSE := Range(NegInf, false, PosInf, false)

  type Key = seq<real>
  type Box = seq<Range>

  ghost predicate InBox(box: Box, x: Key) {
    |box| == |x| && forall i :: 0 <= i < |x| ==> box[i].Has(x[i])
  }

  function UniverseBox(n: nat): Box {
    seq(n, _ => UNIVERSE)
  }
}
