/**
 * Facts about the truncated proportional value `(num / den * x).toInt()`,
 * which for positive integers is the floor of num * x / den.
 */
module Arith {

  /** Multiplying by a non-negative factor keeps an order. */
  lemma MulLeft(a: int, b: int, c: int)
    requires a <= b && c >= 0
    ensures c * a <= c * b
  {
  }

  /** num * x / den is the floor of the exact quotient, and stays below x when num < den. */
  lemma ScaledFloor(num: int, x: int, den: int)
    requires num >= 0 && x > 0 && den > 0
    ensures 0 <= num * x / den
    ensures (num * x / den) * den <= num * x < (num * x / den + 1) * den
    ensures num <= den ==> num * x / den <= x
    ensures num < den ==> num * x / den < x
  {
    var q := num * x / den;
    assert num * x == q * den + (num * x) % den;
    if num <= den {
      MulLeft(num, den, x);
      if q > x {
        MulLeft(x + 1, q, den);
        assert false;
      }
    }
    if num < den {
      MulLeft(num + 1, den, x);
      if q >= x {
        MulLeft(x, q, den);
        assert false;
      }
    }
  }
}
