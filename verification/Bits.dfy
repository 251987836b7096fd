/** Shifts and bitwise operations on natural numbers, bit by bit, and what they are in arithmetic. */
module Bits {

  function Pow2(e: nat): (p: nat)
    ensures p >= 1
  {
    if e == 0 then 1 else 2 * Pow2(e - 1)
  }

  /** x >> e: one bit dropped at a time. */
  function Shr(x: nat, e: nat): nat {
    if e == 0 then x else Shr(x / 2, e - 1)
  }

  /** x << e, in a type wide enough. */
  function Shl(x: nat, e: nat): nat
    decreases e
  {
    if e == 0 then x else Shl(2 * x, e - 1)
  }

  function And(x: nat, y: nat): nat {
    if x == 0 || y == 0 then 0 else 2 * And(x / 2, y / 2) + (if x % 2 == 1 && y % 2 == 1 then 1 else 0)
  }

  function Or(x: nat, y: nat): nat {
    if x == 0 then y else if y == 0 then x else 2 * Or(x / 2, y / 2) + (if x % 2 == 1 || y % 2 == 1 then 1 else 0)
  }

  lemma HalfThen(x: nat, p: nat)
    requires p >= 1
    ensures (x / 2) / p == x / (2 * p) && 2 * ((x / 2) % p) + x % 2 == x % (2 * p)
  {
    var h := x / 2;
    var q, r := h / p, h % p;
    assert h == q * p + r;
    assert x == q * (2 * p) + (2 * r + x % 2);
    QuotientIs(x, 2 * p, q, 2 * r + x % 2);
  }

  lemma QuotientIs(x: nat, d: nat, q: nat, r: nat)
    requires r < d && x == q * d + r
    ensures x / d == q && x % d == r
  {
    var k := x / d;
    assert x == k * d + x % d;
    assert k < q ==> (k + 1) * d <= q * d;
    assert q < k ==> (q + 1) * d <= k * d;
  }

  lemma {:induction false} ShiftIsQuotient(x: nat, e: nat)
    ensures Shr(x, e) == x / Pow2(e)
  {
    if e > 0 {
      ShiftIsQuotient(x / 2, e - 1);
      HalfThen(x, Pow2(e - 1));
    }
  }

  lemma {:induction false} ShiftIsProduct(x: nat, e: nat)
    ensures Shl(x, e) == x * Pow2(e)
    decreases e
  {
    if e > 0 {
      ShiftIsProduct(2 * x, e - 1);
      assert (2 * x) * Pow2(e - 1) == x * (2 * Pow2(e - 1));
    }
  }

  lemma {:induction false} MaskIsRemainder(x: nat, e: nat)
    ensures And(x, Pow2(e) - 1) == x % Pow2(e)
  {
    if e > 0 {
      var p := Pow2(e - 1);
      assert Pow2(e) == 2 * p;
      hide Pow2, And;
      MaskIsRemainder(x / 2, e - 1);
      HalfThen(x, p);
      AndOdd(x, p - 1);
    }
  }

  lemma AndOdd(x: nat, y: nat)
    ensures And(x, 2 * y + 1) == 2 * And(x / 2, y) + x % 2
  {
  }

  /** A mask with zeros at the end. */
  lemma {:induction false} MaskShifted(x: nat, y: nat, e: nat)
    ensures And(x, Shl(y, e)) == Shl(And(Shr(x, e), y), e)
  {
    if e > 0 {
      ShlOut(y, e - 1);
      ShlOut(And(Shr(x, e), y), e - 1);
      MaskShifted(x / 2, y, e - 1);
      AndEven(x, Shl(y, e - 1));
    }
  }

  lemma {:induction false} ShlOut(y: nat, e: nat)
    ensures Shl(2 * y, e) == 2 * Shl(y, e)
    decreases e
  {
    if e > 0 { ShlOut(2 * y, e - 1); }
  }

  lemma AndEven(x: nat, y: nat)
    ensures And(x, 2 * y) == 2 * And(x / 2, y)
  {
  }

  /** Joining high bits and low bits that do not overlap adds them. */
  lemma {:induction false} OrIsSum(x: nat, y: nat, e: nat)
    requires y < Pow2(e)
    ensures Or(Shl(x, e), y) == Shl(x, e) + y
  {
    if e > 0 {
      ShlOut(x, e - 1);
      OrIsSum(x, y / 2, e - 1);
    }
  }
}
