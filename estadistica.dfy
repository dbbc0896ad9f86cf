/**
 * The statistics the store reports for a group of rows: the sum as the store's
 * `reduce((acc, x) => acc + x, 0)` computes it, the mean, and the population
 * variance (squared deviations divided by N, not N - 1).
 */
module Estadistica {

  /** Left-to-right sum of xs. */
  function Suma(xs: seq<real>): real {
    if xs == [] then 0.0 else Suma(xs[..|xs| - 1]) + xs[|xs| - 1]
  }

  /** Sum of squared deviations of xs from m. */
  function SumaCuadrados(xs: seq<real>, m: real): (r: real)
    ensures r >= 0.0
  {
    if xs == [] then 0.0
    else
      var d := xs[|xs| - 1] - m;
      SumaCuadrados(xs[..|xs| - 1], m) + d * d
  }

  function Media(xs: seq<real>): real
    requires |xs| > 0
  {
    Suma(xs) / (|xs| as real)
  }

  function Varianza(xs: seq<real>): (v: real)
    requires |xs| > 0
    ensures v >= 0.0
  {
    SumaCuadrados(xs, Media(xs)) / (|xs| as real)
  }

  lemma {:induction false} SumaAcotada(xs: seq<real>, lo: real, hi: real)
    requires forall i :: 0 <= i < |xs| ==> lo <= xs[i] <= hi
    ensures (|xs| as real) * lo <= Suma(xs) <= (|xs| as real) * hi
  {
    if xs != [] {
      SumaAcotada(xs[..|xs| - 1], lo, hi);
      assert (|xs| as real) * lo == ((|xs| - 1) as real) * lo + lo;
      assert (|xs| as real) * hi == ((|xs| - 1) as real) * hi + hi;
    }
  }

  /** The mean lies between any bounds of the samples. */
  lemma MediaAcotada(xs: seq<real>, lo: real, hi: real)
    requires |xs| > 0
    requires forall i :: 0 <= i < |xs| ==> lo <= xs[i] <= hi
    ensures lo <= Media(xs) <= hi
  {
    SumaAcotada(xs, lo, hi);
    var n := |xs| as real;
    assert Media(xs) * n == Suma(xs);
    assert (Media(xs) - lo) * n >= 0.0;
    assert (hi - Media(xs)) * n >= 0.0;
  }

  lemma {:induction false} SumaConstante(xs: seq<real>, c: real)
    requires forall i :: 0 <= i < |xs| ==> xs[i] == c
    ensures Suma(xs) == (|xs| as real) * c
    ensures SumaCuadrados(xs, c) == 0.0
  {
    if xs != [] {
      SumaConstante(xs[..|xs| - 1], c);
      assert (|xs| as real) * c == ((|xs| - 1) as real) * c + c;
    }
  }

  /**
   * Equal samples have no spread; in particular a single sample has population
   * variance 0, not an undefined value.
   */
  lemma VarianzaConstante(xs: seq<real>, c: real)
    requires |xs| > 0
    requires forall i :: 0 <= i < |xs| ==> xs[i] == c
    ensures Media(xs) == c
    ensures Varianza(xs) == 0.0
  {
    SumaConstante(xs, c);
  }
}
