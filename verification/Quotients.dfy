/** Division by a positive number, in the form the page and block arithmetic needs. */
module Quotients {

  lemma AtLeast(x: nat, d: nat, k: nat)
    requires d > 0
    ensures k <= x / d <==> k * d <= x
  {
    var q := x / d;
    assert x == d * q + x % d;
    if k <= q {
      assert k * d <= q * d;
    } else {
      assert k * d >= (q + 1) * d;
    }
  }

  lemma ModUnique(k: int, e: nat, q: int, r: nat)
    requires r < e && k == q * e + r
    ensures k % e == r
  {
    var d := k / e - q;
    assert d * e == r - k % e by {
      assert k == (k / e) * e + k % e;
      assert (k / e - q) * e == (k / e) * e - q * e;
    }
  }

  /** The remainder of a number at most one divisor away from the range. */
  lemma Residue(x: int, d: nat)
    requires d > 0 && 0 <= x + d && x < 2 * d
    ensures x % d == if x < 0 then x + d else if x < d then x else x - d
  {
    ModUnique(x, d, if x < 0 then -1 else if x < d then 0 else 1, if x < 0 then x + d else if x < d then x else x - d);
  }
}
