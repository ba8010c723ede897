/**
 * JavaScript's `|`, `&` and `& ~` on the non-negative 32-bit integers that
 * privilege masks are, defined bit by bit from the lowest bit, and the
 * facts about them the permission checks rely on.
 */
module Bits {

  /** `x | y`. */
  function Or(x: nat, y: nat): (z: nat)
    decreases x + y
  {
    if x == 0 then y
    else if y == 0 then x
    else 2 * Or(x / 2, y / 2) + (if x % 2 == 1 || y % 2 == 1 then 1 else 0)
  }

  /** `x & y`. */
  function And(x: nat, y: nat): (z: nat)
  {
    if x == 0 || y == 0 then 0
    else 2 * And(x / 2, y / 2) + (if x % 2 == 1 && y % 2 == 1 then 1 else 0)
  }

  /** `x & ~y`: the bits of `x` that are not in `y`. */
  function AndNot(x: nat, y: nat): (z: nat)
  {
    if x == 0 then 0
    else if y == 0 then x
    else 2 * AndNot(x / 2, y / 2) + (if x % 2 == 1 && y % 2 == 0 then 1 else 0)
  }

  /** Every bit of `x` is a bit of `y`. */
  predicate SubMask(x: nat, y: nat)
  {
    AndNot(x, y) == 0
  }

  function Pow2(k: nat): (p: nat)
    ensures p >= 1
  {
    if k == 0 then 1 else 2 * Pow2(k - 1)
  }

  // ---------------------------------------------------------------------
  // OR is the least upper bound of the sub-mask order

  lemma {:induction false} OrUpper(x: nat, y: nat)
    ensures SubMask(x, Or(x, y)) && SubMask(y, Or(x, y))
    decreases x + y
  {
    if x != 0 && y != 0 {
      OrUpper(x / 2, y / 2);
    } else if x != 0 {
      SubMaskRefl(x);
    } else if y != 0 {
      SubMaskRefl(y);
    }
  }

  lemma {:induction false} OrLeast(x: nat, y: nat, z: nat)
    requires SubMask(x, z) && SubMask(y, z)
    ensures SubMask(Or(x, y), z)
    decreases x + y
  {
    if x != 0 && y != 0 {
      OrLeast(x / 2, y / 2, z / 2);
    }
  }

  lemma {:induction false} SubMaskRefl(x: nat)
    ensures SubMask(x, x)
  {
    if x != 0 {
      SubMaskRefl(x / 2);
    }
  }

  lemma {:induction false} SubMaskTrans(x: nat, y: nat, z: nat)
    requires SubMask(x, y) && SubMask(y, z)
    ensures SubMask(x, z)
  {
    if x != 0 {
      SubMaskTrans(x / 2, y / 2, z / 2);
    }
  }

  lemma {:induction false} OrComm(x: nat, y: nat)
    ensures Or(x, y) == Or(y, x)
    decreases x + y
  {
    if x != 0 && y != 0 {
      OrComm(x / 2, y / 2);
    }
  }

  lemma {:induction false} OrAssoc(x: nat, y: nat, z: nat)
    ensures Or(Or(x, y), z) == Or(x, Or(y, z))
    decreases x + y + z
  {
    if x != 0 && y != 0 && z != 0 {
      OrAssoc(x / 2, y / 2, z / 2);
      OrNonZero(x, y);
      OrNonZero(y, z);
      assert Or(x, y) / 2 == Or(x / 2, y / 2);
      assert Or(y, z) / 2 == Or(y / 2, z / 2);
    }
  }

  lemma OrNonZero(x: nat, y: nat)
    requires x != 0
    ensures Or(x, y) != 0
  {
    OrUpper(x, y);
  }

  // ---------------------------------------------------------------------
  // Clearing bits

  /** Clearing `a` and then `b` clears `a | b`. */
  lemma {:induction false} AndNotOr(x: nat, a: nat, b: nat)
    ensures AndNot(AndNot(x, a), b) == AndNot(x, Or(a, b))
    decreases x
  {
    if x != 0 && a != 0 && b != 0 {
      AndNotOr(x / 2, a / 2, b / 2);
      OrNonZero(a, b);
      var r := AndNot(x, a);
      if r != 0 {
        assert r / 2 == AndNot(x / 2, a / 2);
      }
    }
  }

  /** Clearing more bits leaves fewer. */
  lemma {:induction false} AndNotMonotone(x: nat, a: nat, b: nat)
    requires SubMask(a, b)
    ensures SubMask(AndNot(x, b), AndNot(x, a))
  {
    if x != 0 && a != 0 && b != 0 {
      AndNotMonotone(x / 2, a / 2, b / 2);
    } else if x != 0 && a == 0 {
      AndNotBelow(x, b);
    }
  }

  lemma {:induction false} AndNotBelow(x: nat, y: nat)
    ensures SubMask(AndNot(x, y), x)
  {
    if x != 0 && y != 0 {
      AndNotBelow(x / 2, y / 2);
    } else {
      SubMaskRefl(x);
    }
  }

  // ---------------------------------------------------------------------
  // Sub-masks and the numeric order

  /** A sub-mask is never larger. */
  lemma {:induction false} SubMaskLe(x: nat, y: nat)
    requires SubMask(x, y)
    ensures x <= y
  {
    if x != 0 {
      SubMaskLe(x / 2, y / 2);
    }
  }

  /** `y & x` is `x` when `x` is a sub-mask of `y`. */
  lemma {:induction false} AndSubMask(x: nat, y: nat)
    requires SubMask(x, y)
    ensures And(y, x) == x
  {
    if x != 0 {
      AndSubMask(x / 2, y / 2);
    }
  }

  /**
   * For a mask of all ones below bit `k` (such as 63 or 127), being no
   * larger is the same as being a sub-mask.
   */
  lemma {:induction false} LowOnesOrder(x: nat, k: nat)
    ensures x <= Pow2(k) - 1 <==> SubMask(x, Pow2(k) - 1)
  {
    if SubMask(x, Pow2(k) - 1) {
      SubMaskLe(x, Pow2(k) - 1);
    }
    if x <= Pow2(k) - 1 && x != 0 {
      assert k > 0;
      LowOnesOrder(x / 2, k - 1);
      assert (Pow2(k) - 1) / 2 == Pow2(k - 1) - 1;
    }
  }

  // ---------------------------------------------------------------------
  // Single bits

  /** Bit `k` of `x` is set. */
  predicate Bit(x: nat, k: nat)
  {
    if k == 0 then x % 2 == 1 else Bit(x / 2, k - 1)
  }

  lemma {:induction false} BitZero(k: nat)
    ensures !Bit(0, k)
  {
    if k > 0 {
      BitZero(k - 1);
    }
  }

  /** A non-zero mask has a set bit. */
  lemma {:induction false} NonZeroHasBit(x: nat)
    requires x != 0
    ensures exists k: nat :: Bit(x, k)
  {
    if x % 2 == 0 {
      NonZeroHasBit(x / 2);
      var k: nat :| Bit(x / 2, k);
      assert Bit(x, k + 1);
    } else {
      assert Bit(x, 0);
    }
  }

  /** A bit of `x | y` is a bit of `x` or of `y`. */
  lemma {:induction false} BitOr(x: nat, y: nat, k: nat)
    ensures Bit(Or(x, y), k) <==> Bit(x, k) || Bit(y, k)
    decreases x + y
  {
    if x == 0 {
      BitZero(k);
    } else if y == 0 {
      BitZero(k);
    } else {
      var z := Or(x / 2, y / 2);
      var b := if x % 2 == 1 || y % 2 == 1 then 1 else 0;
      assert Or(x, y) == 2 * z + b;
      assert Or(x, y) / 2 == z && Or(x, y) % 2 == b;
      if k > 0 {
        BitOr(x / 2, y / 2, k - 1);
      }
    }
  }

  /** Every bit of `x` is a bit of `y`. */
  ghost predicate BitsIn(x: nat, y: nat)
  {
    forall k: nat :: Bit(x, k) ==> Bit(y, k)
  }

  /** Being a sub-mask is having every bit of `x` in `y`. */
  lemma {:induction false} SubMaskBits(x: nat, y: nat)
    ensures SubMask(x, y) <==> BitsIn(x, y)
  {
    if x == 0 {
      forall k: nat
        ensures !Bit(x, k)
      {
        BitZero(k);
      }
    } else if y == 0 {
      NonZeroHasBit(x);
      var k: nat :| Bit(x, k);
      BitZero(k);
    } else {
      SubMaskBits(x / 2, y / 2);
      assert SubMask(x, y) <==> SubMask(x / 2, y / 2) && (x % 2 == 1 ==> y % 2 == 1) by {
        assert AndNot(x, y) == 2 * AndNot(x / 2, y / 2) + (if x % 2 == 1 && y % 2 == 0 then 1 else 0);
      }
      if BitsIn(x, y) {
        BitsDown(x, y);
      }
      if SubMask(x, y) {
        BitsUp(x, y);
      }
    }
  }

  lemma {:induction false} BitsDown(x: nat, y: nat)
    requires BitsIn(x, y)
    ensures x % 2 == 1 ==> y % 2 == 1
    ensures BitsIn(x / 2, y / 2)
  {
    assert Bit(x, 0) ==> Bit(y, 0);
    forall k: nat | Bit(x / 2, k)
      ensures Bit(y / 2, k)
    {
      assert Bit(x, k + 1);
    }
  }

  lemma {:induction false} BitsUp(x: nat, y: nat)
    requires x % 2 == 1 ==> y % 2 == 1
    requires BitsIn(x / 2, y / 2)
    ensures BitsIn(x, y)
  {
    forall k: nat | Bit(x, k)
      ensures Bit(y, k)
    {
      if k > 0 {
        assert Bit(x / 2, k - 1);
      }
    }
  }
}
