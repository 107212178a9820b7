/** The two-valued answer "can it be true, can it be false" (BoolMask.h). */
module BoolMasks {

  datatype BoolMask = BoolMask(canBeTrue: bool, canBeFalse: bool) {

    function And(m: BoolMask): BoolMask {
      BoolMask(canBeTrue && m.canBeTrue, canBeFalse || m.canBeFalse)
    }

    function Or(m: BoolMask): BoolMask {
      BoolMask(canBeTrue || m.canBeTrue, canBeFalse && m.canBeFalse)
    }

    function Not(): BoolMask {
      BoolMask(canBeFalse, canBeTrue)
    }

    predicate IsComplete() {
      canBeTrue && canBeFalse
    }

    /** The mask admits truth value `b`. */
    predicate Admits(b: bool) {
      if b then canBeTrue else canBeFalse
    }
  }

  function Combine(left: BoolMask, right: BoolMask): BoolMask {
    BoolMask(left.canBeTrue || right.canBeTrue, left.canBeFalse || right.canBeFalse)
  }

  const CONSIDER_ONLY_CAN_BE_TRUE := BoolMask(false, true)
}
