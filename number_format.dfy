/**
 * `Number(x.toFixed(2))` over the reals: the ECMAScript definition picks the
 * integer n whose n / 100 is nearest to x (the larger one on a tie), restores
 * the sign, and leaves |x| >= 10^21 as it is.
 */
module NumberFormat {

  const TO_FIXED_LIMIT: real := 1000000000000000000000.0

  function Abs(x: real): real {
    if x < 0.0 then -x else x
  }

  /** Hundredths of a non-negative x, half rounded up. */
  function Centesimos(x: real): (c: int)
    requires x >= 0.0
    ensures -0.5 < c as real - x * 100.0 <= 0.5
    ensures c >= 0
  {
    (x * 100.0 + 0.5).Floor
  }

  function ToFixed2(x: real): (r: real)
    ensures Abs(r - x) <= 0.005
    ensures Abs(x) < TO_FIXED_LIMIT ==> (r * 100.0).Floor as real == r * 100.0
    ensures Abs(x) >= TO_FIXED_LIMIT ==> r == x
  {
    if Abs(x) >= TO_FIXED_LIMIT then x
    else if x < 0.0 then
      var n := -Centesimos(-x);
      assert n as real / 100.0 * 100.0 == n as real;
      n as real / 100.0
    else
      var n := Centesimos(x);
      assert n as real / 100.0 * 100.0 == n as real;
      n as real / 100.0
  }

  /** No other multiple of 0.01 is nearer to x than ToFixed2(x). */
  lemma ToFixed2Nearest(x: real, n: int)
    requires Abs(x) < TO_FIXED_LIMIT
    ensures Abs(ToFixed2(x) - x) <= Abs(n as real / 100.0 - x)
  {
    var y := if x < 0.0 then -x else x;
    var c := Centesimos(y);
    assert c as real <= y * 100.0 + 0.5 < c as real + 1.0;
    var m := if x < 0.0 then -n else n;
    if m != c {
      assert m <= c - 1 || m >= c + 1;
      assert Abs(m as real - y * 100.0) >= 0.5;
    }
  }
}
