/**
  Integer division as Go performs it on `int` operands.

  Go's `/` truncates the quotient toward zero, so the remainder takes the
  sign of the dividend.  Dafny's `/` is Euclidean (the remainder is never
  negative), which differs whenever the dividend is negative and the
  division is inexact.  Division by zero is a run-time panic in Go; callers
  here must rule it out or model the panic themselves.
 */
module GoInt {

  function Abs(n: int): nat
  {
    if n < 0 then -n else n
  }

  /** `q` is the quotient of `a` by `b` truncated toward zero: the remainder
      `a - q * b` is smaller than `b` in magnitude and never has the
      opposite sign to `a`. */
  ghost predicate IsTruncatedQuotient(a: int, b: int, q: int)
  {
    var rem := a - q * b;
    && Abs(rem) < Abs(b)
    && (a >= 0 ==> rem >= 0)
    && (a <= 0 ==> rem <= 0)
  }

  /** Go's `a / b` for `b != 0`: the number of times `b` can be taken
      away from `a` toward zero, negated when the operands have opposite
      signs. */
  function Quot(a: int, b: int): (q: int)
    requires b != 0
    ensures IsTruncatedQuotient(a, b, q)
    decreases Abs(a)
  {
    if Abs(a) < Abs(b) then 0
    else if (a < 0) == (b < 0) then
      var q := Quot(a - b, b);
      StepTowardZero(a, b, a - b, q, 1);
      q + 1
    else
      var q := Quot(a + b, b);
      StepTowardZero(a, b, a + b, q, -1);
      q - 1
  }

  /** Taking `b` away from `a` toward zero keeps the remainder and counts
      one step in the quotient. */
  lemma StepTowardZero(a: int, b: int, a': int, q: int, d: int)
    requires b != 0 && Abs(a) >= Abs(b)
    requires (d == 1 && (a < 0) == (b < 0) && a' == a - b)
          || (d == -1 && (a < 0) != (b < 0) && a' == a + b)
    requires IsTruncatedQuotient(a', b, q)
    ensures IsTruncatedQuotient(a, b, q + d)
  {
    assert (q + d) * b == q * b + d * b;
    assert a - (q + d) * b == a' - q * b;
  }

  /** The truncated quotient is unique, so `Quot` is the only function with
      its contract. */
  lemma QuotUnique(a: int, b: int, q: int)
    requires b != 0
    requires IsTruncatedQuotient(a, b, q)
    ensures q == Quot(a, b)
  {
    var q0 := Quot(a, b);
    if q != q0 {
      // Both remainders lie on the same side of zero, each below |b| in
      // magnitude, so their difference is below |b| too; yet it is a
      // non-zero multiple of b.
      DifferenceOfRemainders(a, b, q, q0);
      RemaindersClose(a, b, a - q0 * b, a - q * b);
      MultipleAtLeast(q - q0, b);
      assert false;
    }
  }

  lemma DifferenceOfRemainders(a: int, b: int, q: int, q0: int)
    ensures (a - q0 * b) - (a - q * b) == (q - q0) * b
  {
  }

  lemma RemaindersClose(a: int, b: int, r0: int, r: int)
    requires Abs(r0) < Abs(b) && Abs(r) < Abs(b)
    requires a >= 0 ==> r0 >= 0 && r >= 0
    requires a <= 0 ==> r0 <= 0 && r <= 0
    ensures Abs(r0 - r) < Abs(b)
  {
  }

  lemma MultipleAtLeast(k: int, b: int)
    requires k != 0 && b != 0
    ensures Abs(k * b) >= Abs(b)
  {
    AbsMul(k, b);
    MulNonNegative(Abs(k) - 1, Abs(b));
    assert Abs(k) * Abs(b) == (Abs(k) - 1) * Abs(b) + Abs(b);
  }

  lemma AbsMul(x: int, y: int)
    ensures Abs(x * y) == Abs(x) * Abs(y)
  {
    if x < 0 && y >= 0 {
      assert x * y == -((-x) * y);
    } else if x >= 0 && y < 0 {
      assert x * y == -(x * (-y));
    } else if x < 0 && y < 0 {
      assert x * y == (-x) * (-y);
    }
  }

  lemma MulNonNegative(x: int, y: int)
    requires x >= 0 && y >= 0
    ensures x * y >= 0
  {
  }

  /** On a non-negative dividend and a positive divisor Go's quotient agrees
      with Dafny's Euclidean one. */
  lemma QuotNonNegative(a: int, b: int)
    requires a >= 0 && b > 0
    ensures Quot(a, b) == a / b
    ensures 0 <= a - Quot(a, b) * b < b
  {
    var q := a / b;
    assert a == q * b + a % b;
    QuotUnique(a, b, q);
  }

  /** With a negative dividend and an inexact division Go rounds up (toward
      zero) where Euclidean division rounds down: the two differ by one. */
  lemma QuotNegativeDividend(a: int, b: int)
    requires a < 0 && b > 0 && a % b != 0
    ensures Quot(a, b) == a / b + 1
  {
    var q := a / b + 1;
    assert a == (a / b) * b + a % b;
    assert a - q * b == a % b - b;
    QuotUnique(a, b, q);
  }
}
