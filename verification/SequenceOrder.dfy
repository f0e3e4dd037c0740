/**
  The modular comparisons of `ControlBlock`, all relative to a fixed `initial`.
 */
module SequenceOrder {
  import opened Machine
  import opened Modular

  /** `a - initial` in 32-bit arithmetic. */
  function Relative(initial: u32, a: u32): u32 {
    Minus(a, initial)
  }

  predicate Equal(initial: u32, a: u32, b: u32) { Relative(initial, a) == Relative(initial, b) }
  predicate LessThan(initial: u32, a: u32, b: u32) { Relative(initial, a) < Relative(initial, b) }
  predicate LessOrEqual(initial: u32, a: u32, b: u32) { Relative(initial, a) <= Relative(initial, b) }
  predicate GreaterThan(initial: u32, a: u32, b: u32) { Relative(initial, a) > Relative(initial, b) }
  predicate GreaterOrEqual(initial: u32, a: u32, b: u32) { Relative(initial, a) >= Relative(initial, b) }

  predicate InMiddle(initial: u32, x: u32, a: u32, b: u32) {
    LessOrEqual(initial, a, x) && LessThan(initial, x, b)
  }

  /** The sequence number at a position counted from `initial` without wrap-around. */
  function NumberAt(initial: u32, position: nat): u32 {
    Wrap(initial + position)
  }

  lemma RelativeNumber(initial: u32, position: nat)
    ensures Relative(initial, NumberAt(initial, position)) == Wrap(position)
  {
    WrapMinus(initial, position);
  }

  /** Below 2^32 the five comparisons are the order of the true positions. */
  lemma OrderIsStreamOrder(initial: u32, x: nat, y: nat)
    requires x < U32 && y < U32
    ensures var a, b := NumberAt(initial, x), NumberAt(initial, y);
            && (Equal(initial, a, b) <==> x == y)
            && (LessThan(initial, a, b) <==> x < y)
            && (LessOrEqual(initial, a, b) <==> x <= y)
            && (GreaterThan(initial, a, b) <==> x > y)
            && (GreaterOrEqual(initial, a, b) <==> x >= y)
  {
    RelativeNumber(initial, x);
    RelativeNumber(initial, y);
  }

  /** A position less than one lap later is seen as later exactly when it is in the same lap. */
  lemma OrderWithinLap(initial: u32, x: nat, distance: nat)
    requires distance < U32
    ensures GreaterOrEqual(initial, NumberAt(initial, x + distance), NumberAt(initial, x))
            <==> x / U32 == (x + distance) / U32
  {
    RelativeNumber(initial, x);
    RelativeNumber(initial, x + distance);
  }

  /** The interval test of section 3.3 of RFC 793: a =< x < b on the circle. */
  predicate InCircle(x: u32, a: u32, b: u32) {
    Minus(x, a) < Minus(b, a)
  }

  /** `inMiddle` is the circular interval test for every x exactly when [a, b) does not pass `initial`. */
  lemma InMiddleIsCircular(initial: u32, a: u32, b: u32)
    ensures (forall x: u32 :: InMiddle(initial, x, a, b) <==> InCircle(x, a, b))
            <==> (LessOrEqual(initial, a, b) || a == b)
  {
    if !LessOrEqual(initial, a, b) {
      assert InCircle(a, a, b) && !InMiddle(initial, a, a, b);
    }
  }
}
