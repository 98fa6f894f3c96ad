/** Half-up integer division (`divRoundHalfUp`) and what its result means. */
module Rounding {
  import opened Common

  /** BigInt `/`: toward zero. */
  function TruncDiv(num: int, den: int): int
    requires den > 0
  {
    if num >= 0 then num / den else -((-num) / den)
  }

  function DivRoundHalfUp(num: int, den: int): Result<int> {
    if den <= 0 then Err(Invalid) else Ok(TruncDiv(num + den / 2, den))
  }

  /** `q` is the integer nearest to num/den, a half going up: q - 1/2 <= num/den < q + 1/2. */
  predicate IsHalfUp(num: int, den: int, q: int) {
    2 * (q * den) - den <= 2 * num < 2 * (q * den) + den
  }

  /** The function rounds half up exactly when num + den/2 is not a negative non-multiple of den,
      because BigInt division truncates. Every caller passes num >= 0. */
  lemma DivRoundHalfUpExact(num: int, den: int)
    ensures DivRoundHalfUp(num, den).Ok? <==> den > 0
    ensures den > 0 ==>
      (IsHalfUp(num, den, DivRoundHalfUp(num, den).value) <==> num + den / 2 >= 0 || (num + den / 2) % den == 0)
  {
    if den > 0 {
      var n := num + den / 2;
      var q := TruncDiv(n, den);
      if n >= 0 {
        assert q * den <= n < q * den + den;
      } else {
        var m := (-n) / den;
        assert m * den <= -n < m * den + den && q == -m;
        assert q * den == -(m * den);
        if n % den == 0 {
          MultipleDivides(-n, den);
        } else {
          assert -n != m * den by {
            if -n == m * den {
              assert n == q * den;
              ModOfMultiple(q, den);
            }
          }
        }
      }
    }
  }

  /** On the domain the callers use, the result is the half-up rounding and is not negative. */
  lemma RoundNat(num: nat, den: int)
    requires den > 0
    ensures DivRoundHalfUp(num, den).Ok? && DivRoundHalfUp(num, den).value >= 0
    ensures IsHalfUp(num, den, DivRoundHalfUp(num, den).value)
  {
    DivRoundHalfUpExact(num, den);
    var q := DivRoundHalfUp(num, den).value;
    assert q <= -1 ==> q * den <= -den;
  }

  lemma MultipleDivides(n: int, den: int)
    requires den > 0 && (-n) % den == 0
    ensures n / den * den == n
  {
    var k := (-n) / den;
    assert -n == k * den;
    assert n == (-k) * den;
    ModOfMultiple(-k, den);
  }

  lemma ModOfMultiple(k: int, den: int)
    requires den > 0
    ensures (k * den) % den == 0 && (k * den) / den == k
  {
    var q, r := (k * den) / den, (k * den) % den;
    assert k * den == q * den + r && 0 <= r < den;
    assert (k - q) * den == r;
    assert k - q >= 1 ==> (k - q) * den >= den;
    assert k - q <= -1 ==> (k - q) * den <= -den;
  }

  lemma HalfUpMonotone(n1: int, d1: int, q1: int, n2: int, d2: int, q2: int)
    requires d1 > 0 && d2 > 0
    requires IsHalfUp(n1, d1, q1) && IsHalfUp(n2, d2, q2)
    requires n1 * d2 <= n2 * d1
    ensures q1 <= q2
  {
    if q1 > q2 {
      var a, b := q1 * d1, q2 * d2;
      MulLe(2 * a - d1, 2 * n1, d2);
      MulLt(2 * n2, 2 * b + d2, d1);
      CommonScale(q1, q2, d1, d2);
    }
  }

  /** On the common denominator, a larger quotient is larger by at least one whole. */
  lemma CommonScale(q1: int, q2: int, d1: int, d2: int)
    requires d1 > 0 && d2 > 0 && q1 > q2
    ensures q1 * d1 * d2 >= q2 * d2 * d1 + d1 * d2
  {
    assert q1 * d1 * d2 == q1 * (d1 * d2) && q2 * d2 * d1 == q2 * (d1 * d2);
    MulLe(q2 + 1, q1, d1 * d2);
  }

  lemma MulLe(x: int, y: int, m: int)
    requires x <= y && m >= 0
    ensures x * m <= y * m
  {
    assert (y - x) * m >= 0;
  }

  lemma MulLt(x: int, y: int, m: int)
    requires x < y && m > 0
    ensures x * m < y * m
  {
    assert (y - x) * m > 0;
  }

  lemma Distribute(m: int, x: int, y: int)
    ensures m * (x + y) == m * x + m * y
  {
  }

  lemma AbsScale(x: int, bound: int, m: nat)
    requires Abs(x) <= bound
    ensures Abs(m * x) <= m * bound
  {
    assert m * (bound - x) >= 0 && m * (bound + x) >= 0;
    assert m * (bound - x) == m * bound - m * x && m * (bound + x) == m * bound + m * x;
  }
}
