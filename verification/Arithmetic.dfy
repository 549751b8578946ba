/**
  Remainders: adding a multiple of the divisor does not change them.
 */
module Arithmetic {

  lemma {:induction false} ModPlus(a: int, k: nat, b: int)
    requires b > 0
    ensures (a + k * b) % b == a % b
  {
    if k > 0 {
      ModPlus(a, k - 1, b);
      assert a + k * b == (a + (k - 1) * b) + b;
      ModOnce(a + (k - 1) * b, b);
    }
  }

  lemma ModOnce(a: int, b: int)
    requires b > 0
    ensures (a + b) % b == a % b
  {
    var q, r := a / b, a % b;
    assert a + b == (q + 1) * b + r;
    DivUnique(a + b, b, q + 1, r);
  }

  lemma DivUnique(x: int, b: int, q: int, r: int)
    requires b > 0 && x == q * b + r && 0 <= r < b
    ensures x % b == r
  {
    var q2, r2 := x / b, x % b;
    assert x == q2 * b + r2;
    assert (q - q2) * b == r2 - r;
    AtLeast(q - q2, b);
    AtLeast(q2 - q, b);
    assert (q2 - q) * b == -((q - q2) * b);
  }

  lemma AtLeast(d: int, b: int)
    requires b > 0
    ensures d >= 1 ==> d * b >= b
  {
  }

  /** The same for any number of times. */
  lemma ModShift(a: int, k: int, b: int)
    requires b > 0
    ensures (a + k * b) % b == a % b
  {
    if k >= 0 {
      ModPlus(a, k, b);
    } else {
      ModPlus(a + k * b, -k, b);
      assert (a + k * b) + (-k) * b == a;
    }
  }
}
