/** Python's unbounded integers as two's-complement bit strings that never end. */
module PythonInt {

  // Bit i of x; a negative number has ones from some place on. Division rounds towards minus infinity.
  predicate Bit(x: int, i: nat)
    decreases i
  {
    if i == 0 then x % 2 == 1 else Bit(x / 2, i - 1)
  }

  function Pow2(k: nat): nat {
    if k == 0 then 1 else 2 * Pow2(k - 1)
  }

  function Magnitude(x: int): nat {
    if x < 0 then -x - 1 else x
  }

  // Python's x & y.
  function And(x: int, y: int): int
    decreases Magnitude(x) + Magnitude(y), if x < 0 then 1 else 0
  {
    if x == 0 || y == 0 then 0
    else if x == -1 then y
    else if y == -1 then x
    else 2 * And(x / 2, y / 2) + if x % 2 == 1 && y % 2 == 1 then 1 else 0
  }

  // Python's ~x.
  function Not(x: int): int {
    -x - 1
  }

  // Python's x | y.
  function Or(x: int, y: int): int {
    Not(And(Not(x), Not(y)))
  }

  // Python's x ^ y.
  function Xor(x: int, y: int): int {
    And(Or(x, y), Not(And(x, y)))
  }

  lemma {:induction false} BitOfAnd(x: int, y: int, i: nat)
    ensures Bit(And(x, y), i) <==> Bit(x, i) && Bit(y, i)
    decreases i
  {
    BitOfConstants(i);
    if i > 0 {
      AndHalves(x, y);
      BitOfAnd(x / 2, y / 2, i - 1);
    }
  }

  lemma AndHalves(x: int, y: int)
    ensures And(x, y) / 2 == And(x / 2, y / 2)
    ensures And(x, y) % 2 == 1 <==> x % 2 == 1 && y % 2 == 1
  {
  }

  lemma {:induction false} BitOfConstants(i: nat)
    ensures !Bit(0, i) && Bit(-1, i)
  {
    if i > 0 {
      BitOfConstants(i - 1);
    }
  }

  lemma {:induction false} BitOfNot(x: int, i: nat)
    ensures Bit(Not(x), i) <==> !Bit(x, i)
    decreases i
  {
    if i > 0 {
      assert Not(x) / 2 == Not(x / 2);
      BitOfNot(x / 2, i - 1);
    }
  }

  lemma BitOfOr(x: int, y: int, i: nat)
    ensures Bit(Or(x, y), i) <==> Bit(x, i) || Bit(y, i)
  {
    BitOfNot(x, i);
    BitOfNot(y, i);
    BitOfAnd(Not(x), Not(y), i);
    BitOfNot(And(Not(x), Not(y)), i);
  }

  lemma BitOfXor(x: int, y: int, i: nat)
    ensures Bit(Xor(x, y), i) <==> Bit(x, i) != Bit(y, i)
  {
    BitOfOr(x, y, i);
    BitOfAnd(x, y, i);
    BitOfNot(And(x, y), i);
    BitOfAnd(Or(x, y), Not(And(x, y)), i);
  }

  // x << 1, with 0 or 1 entering at the bottom.
  lemma BitOfShift(x: int, low: int, i: nat)
    requires 0 <= low <= 1
    ensures Bit(2 * x + low, i) <==> if i == 0 then low == 1 else Bit(x, i - 1)
  {
    assert (2 * x + low) / 2 == x;
  }

  lemma {:induction false} BitOfPow2(k: nat, i: nat)
    ensures Bit(Pow2(k), i) <==> i == k
  {
    if i == 0 {
    } else if k == 0 {
      BitOfConstants(i - 1);
    } else {
      assert Pow2(k) / 2 == Pow2(k - 1);
      BitOfPow2(k - 1, i - 1);
    }
  }

  // (1 << k) - 1 has exactly the k lowest bits.
  lemma {:induction false} BitOfMask(k: nat, i: nat)
    ensures Bit(Pow2(k) - 1, i) <==> i < k
  {
    if k == 0 {
      BitOfConstants(i);
    } else if i > 0 {
      assert (Pow2(k) - 1) / 2 == Pow2(k - 1) - 1;
      BitOfMask(k - 1, i - 1);
    } else {
      assert Pow2(k) - 1 == 2 * (Pow2(k - 1) - 1) + 1;
    }
  }

  /** `x & (1 << k)` is true exactly when bit k of x is set. */
  lemma {:induction false} TestBit(x: int, k: nat)
    ensures And(x, Pow2(k)) != 0 <==> Bit(x, k)
    decreases k
  {
    if k == 0 {
      assert And(x / 2, 0) == 0;
    } else {
      assert Pow2(k) / 2 == Pow2(k - 1);
      TestBit(x / 2, k - 1);
    }
  }

  // The carry into place i when a carry `low` already enters at the bottom.
  predicate Carry(x: int, y: int, low: int, i: nat)
    decreases i
  {
    if i == 0 then low == 1
    else
      var c := Carry(x, y, low, i - 1);
      (Bit(x, i - 1) && Bit(y, i - 1)) || (c && (Bit(x, i - 1) || Bit(y, i - 1)))
  }

  lemma {:induction false} CarryHalves(x: int, y: int, low: int, i: nat)
    requires 0 <= low <= 1 && i > 0
    ensures Carry(x, y, low, i) == Carry(x / 2, y / 2, if Carry(x, y, low, 1) then 1 else 0, i - 1)
    decreases i
  {
    if i > 1 {
      CarryHalves(x, y, low, i - 1);
    }
  }

  /** Integer addition is the ripple-carry adder on the bits. */
  lemma {:induction false} RippleAdd(x: int, y: int, low: int, i: nat)
    requires 0 <= low <= 1
    ensures Bit(x + y + low, i) <==> (Bit(x, i) != Bit(y, i)) != Carry(x, y, low, i)
    decreases i
  {
    if i > 0 {
      var up := if Carry(x, y, low, 1) then 1 else 0;
      assert (x + y + low) / 2 == x / 2 + y / 2 + up;
      RippleAdd(x / 2, y / 2, up, i - 1);
      CarryHalves(x, y, low, i);
    }
  }
}
