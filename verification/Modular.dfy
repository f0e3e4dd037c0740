/**
  32-bit sequence numbers: `Wrap` and `Minus` are C++ unsigned reduction and
  subtraction, and behave on the circle as the true positions do on the line.
 */
module Modular {
  import opened Machine

  lemma WrapUnique(x: nat, q: int, r: u32)
    requires x == U32 * q + r
    ensures Wrap(x) == r
  {
  }

  /** A reduced operand may be replaced by the unreduced one. */
  lemma WrapAdd(x: nat, y: nat)
    ensures Wrap(Wrap(x) + y) == Wrap(x + y)
  {
    WrapUnique(x + y, x / U32 + (Wrap(x) + y) / U32, Wrap(Wrap(x) + y));
  }

  /** Addition undoes subtraction. */
  lemma MinusWrap(x: nat, a: u32)
    ensures Wrap(x + Minus(a, Wrap(x))) == a
  {
    WrapAdd(x, Minus(a, Wrap(x)));
  }

  /** Subtraction undoes addition. */
  lemma WrapMinus(x: nat, d: nat)
    ensures Minus(Wrap(x + d), Wrap(x)) == Wrap(d)
  {
    WrapAdd(d, Wrap(x));
    WrapAdd(x, d);
    var w := Wrap(x) + Wrap(d);
    WrapUnique(w, if w < U32 then 0 else 1, if w < U32 then w else w - U32);
  }

  /** Positions less than 2^32 apart are equal exactly when their numbers are. */
  lemma WrapInjective(x: nat, y: nat)
    requires x - y < U32 && y - x < U32
    ensures Wrap(x) == Wrap(y) <==> x == y
  {
  }
}
