/**
 * The aggregates of the in-memory store: rows grouped by category (one metric
 * per category, sorted by category name) and the weight summary over a range.
 */
module StoreMetrics {
  import opened Wrappers
  import opened ImcTypes
  import JsArray
  import opened StoreQuery
  import opened Estadistica
  import opened NumberFormat

  /** `ImcMetric`; the spread is the population variance of the group's `imc`. */
  datatype ImcMetric = ImcMetric(categoria: string, total: nat, promedioImc: real, varianzaImc: real)

  /** `ImcWeightMetric`; mean and spread are null without rows. */
  datatype ImcWeightMetric = ImcWeightMetric(total: nat, promedioPeso: Option<real>, varianzaPeso: Option<real>)

  function Imcs(rows: seq<ImcEntity>): (xs: seq<real>)
    ensures |xs| == |rows|
  {
    seq(|rows|, i requires 0 <= i < |rows| => rows[i].imc)
  }

  function Pesos(rows: seq<ImcEntity>): (xs: seq<real>)
    ensures |xs| == |rows|
  {
    seq(|rows|, i requires 0 <= i < |rows| => rows[i].peso)
  }

  predicate TieneCategoria(rows: seq<ImcEntity>, categoria: string) {
    exists i :: 0 <= i < |rows| && rows[i].categoria == categoria
  }

  predicate SinRepetir(keys: seq<string>) {
    forall i, j :: 0 <= i < j < |keys| ==> keys[i] != keys[j]
  }

  /**
   * The categories of rows, each once, in order of first appearance: the key
   * order of the `Map` that `metricsByCategoria` fills.
   */
  function Distintas(rows: seq<ImcEntity>): seq<string> {
    if rows == [] then []
    else
      var d := Distintas(rows[..|rows| - 1]);
      var c := rows[|rows| - 1].categoria;
      if c in d then d else d + [c]
  }

  /** Each category of the rows appears once, and only categories of the rows appear. */
  lemma {:induction false} DistintasCorrecta(rows: seq<ImcEntity>)
    ensures SinRepetir(Distintas(rows))
    ensures forall c :: c in Distintas(rows) <==> TieneCategoria(rows, c)
  {
    if rows != [] {
      var init := rows[..|rows| - 1];
      var c := rows[|rows| - 1].categoria;
      DistintasCorrecta(init);
      forall k | TieneCategoria(rows, k) ensures TieneCategoria(init, k) || k == c {
        var i :| 0 <= i < |rows| && rows[i].categoria == k;
        if i < |rows| - 1 {
          assert init[i] == rows[i];
        }
      }
      forall k | TieneCategoria(init, k) ensures TieneCategoria(rows, k) {
        var i :| 0 <= i < |init| && init[i].categoria == k;
        assert rows[i] == init[i];
      }
    }
  }

  /** A category that no row carries has an empty bucket, and one that some row carries a non-empty one. */
  lemma DeCategoriaVacia(rows: seq<ImcEntity>, categoria: string)
    ensures DeCategoria(rows, categoria) == [] <==> !TieneCategoria(rows, categoria)
  {
    if TieneCategoria(rows, categoria) {
      JsArray.FilterMembers(rows, EsDeCategoria(categoria));
      var i :| 0 <= i < |rows| && rows[i].categoria == categoria;
      assert rows[i] in DeCategoria(rows, categoria);
    } else {
      JsArray.FilterNone(rows, EsDeCategoria(categoria));
    }
  }

  /** The metric of one category's bucket. */
  function Metrica(categoria: string, bucket: seq<ImcEntity>): (m: ImcMetric)
    requires |bucket| > 0
    ensures m.categoria == categoria && m.total == |bucket|
    ensures Abs(m.promedioImc - Media(Imcs(bucket))) <= 0.005
    ensures m.varianzaImc == Varianza(Imcs(bucket))
    ensures m.varianzaImc >= 0.0
  {
    var total := |bucket|;
    var promedio := Suma(Imcs(bucket)) / (total as real);
    var varianza := SumaCuadrados(Imcs(bucket), promedio) / (total as real);
    ImcMetric(categoria, total, ToFixed2(promedio), varianza)
  }

  /**
   * A group's reported mean stays within its samples' bounds, up to the
   * rounding; a group of one row has zero spread and its own rounded index
   * as mean.
   */
  lemma MetricaAcotada(categoria: string, bucket: seq<ImcEntity>, lo: real, hi: real)
    requires |bucket| > 0
    requires forall i :: 0 <= i < |bucket| ==> lo <= bucket[i].imc <= hi
    ensures lo - 0.005 <= Metrica(categoria, bucket).promedioImc <= hi + 0.005
    ensures |bucket| == 1 ==> Metrica(categoria, bucket).varianzaImc == 0.0
    ensures |bucket| == 1 ==> Metrica(categoria, bucket).promedioImc == ToFixed2(bucket[0].imc)
  {
    var xs := Imcs(bucket);
    assert forall i :: 0 <= i < |xs| ==> xs[i] == bucket[i].imc;
    MediaAcotada(xs, lo, hi);
    if |bucket| == 1 {
      VarianzaConstante(xs, bucket[0].imc);
    }
  }

  /** The metrics of the given categories, in that order. */
  function MetricasDe(keys: seq<string>, rows: seq<ImcEntity>): (ms: seq<ImcMetric>)
    requires forall k :: k in keys ==> TieneCategoria(rows, k)
    ensures |ms| == |keys|
  {
    if keys == [] then []
    else
      var k := keys[|keys| - 1];
      DeCategoriaVacia(rows, k);
      MetricasDe(keys[..|keys| - 1], rows) + [Metrica(k, DeCategoria(rows, k))]
  }

  /** One more key adds its metric at the end. */
  lemma MetricasDePrefijo(keys: seq<string>, rows: seq<ImcEntity>, j: int)
    requires forall k :: k in keys ==> TieneCategoria(rows, k)
    requires 0 <= j < |keys|
    ensures |DeCategoria(rows, keys[j])| > 0
    ensures MetricasDe(keys[..j + 1], rows) == MetricasDe(keys[..j], rows) + [Metrica(keys[j], DeCategoria(rows, keys[j]))]
  {
    DeCategoriaVacia(rows, keys[j]);
    assert keys[..j + 1][..j] == keys[..j];
  }

  lemma {:induction false} MetricasDeIndice(keys: seq<string>, rows: seq<ImcEntity>, i: int)
    requires forall k :: k in keys ==> TieneCategoria(rows, k)
    requires 0 <= i < |keys|
    ensures |DeCategoria(rows, keys[i])| > 0
    ensures MetricasDe(keys, rows)[i] == Metrica(keys[i], DeCategoria(rows, keys[i]))
  {
    DeCategoriaVacia(rows, keys[i]);
    if i < |keys| - 1 {
      MetricasDeIndice(keys[..|keys| - 1], rows, i);
    }
  }

  /** Lexicographic order of strings by character code. */
  predicate StrLess(a: string, b: string) {
    if a == [] then b != []
    else if b == [] then false
    else if a[0] != b[0] then a[0] < b[0]
    else StrLess(a[1..], b[1..])
  }

  lemma {:induction false} StrLessIrreflexive(a: string)
    ensures !StrLess(a, a)
  {
    if a != [] {
      StrLessIrreflexive(a[1..]);
    }
  }

  lemma {:induction false} StrLessTransitive(a: string, b: string, c: string)
    requires StrLess(a, b) && StrLess(b, c)
    ensures StrLess(a, c)
  {
    if a != [] && b != [] && c != [] && a[0] == b[0] == c[0] {
      StrLessTransitive(a[1..], b[1..], c[1..]);
    }
  }

  lemma {:induction false} StrLessTotal(a: string, b: string)
    requires a != b
    ensures StrLess(a, b) || StrLess(b, a)
  {
    if a != [] && b != [] && a[0] == b[0] {
      assert a == [a[0]] + a[1..] && b == [b[0]] + b[1..];
      StrLessTotal(a[1..], b[1..]);
    }
  }

  ghost predicate OrdenEstricto(ms: seq<ImcMetric>) {
    forall i, j :: 0 <= i < j < |ms| ==> StrLess(ms[i].categoria, ms[j].categoria)
  }

  /** Inserts m before the first metric whose category it precedes. */
  function InsertarMetrica(m: ImcMetric, s: seq<ImcMetric>): (r: seq<ImcMetric>)
    ensures |r| == |s| + 1
    ensures multiset(r) == multiset(s) + multiset{m}
  {
    if s == [] then [m]
    else if StrLess(m.categoria, s[0].categoria) then [m] + s
    else
      assert s == [s[0]] + s[1..];
      [s[0]] + InsertarMetrica(m, s[1..])
  }

  lemma {:induction false} InsertarMetricaOrdenada(m: ImcMetric, s: seq<ImcMetric>)
    requires OrdenEstricto(s)
    requires forall i :: 0 <= i < |s| ==> s[i].categoria != m.categoria
    ensures OrdenEstricto(InsertarMetrica(m, s))
  {
    if s == [] {
    } else if StrLess(m.categoria, s[0].categoria) {
      forall i | 0 <= i < |s| ensures StrLess(m.categoria, s[i].categoria) {
        if i > 0 {
          StrLessTransitive(m.categoria, s[0].categoria, s[i].categoria);
        }
      }
      assert InsertarMetrica(m, s) == [m] + s;
    } else {
      var rest := InsertarMetrica(m, s[1..]);
      InsertarMetricaOrdenada(m, s[1..]);
      StrLessTotal(m.categoria, s[0].categoria);
      forall y | y in rest ensures StrLess(s[0].categoria, y.categoria) {
        assert y in multiset(rest);
        assert y == m || y in multiset(s[1..]);
        if y != m {
          var k :| 0 <= k < |s[1..]| && s[1..][k] == y;
          assert s[k + 1] == y;
        }
      }
    }
  }

  /** `metrics.sort((a, b) => a.categoria.localeCompare(b.categoria))`. */
  function OrdenarMetricas(s: seq<ImcMetric>): (r: seq<ImcMetric>)
    ensures |r| == |s| && multiset(r) == multiset(s)
  {
    if s == [] then []
    else
      assert s == s[..|s| - 1] + [s[|s| - 1]];
      InsertarMetrica(s[|s| - 1], OrdenarMetricas(s[..|s| - 1]))
  }

  /** Metrics with pairwise distinct categories come out strictly ascending. */
  lemma {:induction false} OrdenarMetricasOrdenadas(s: seq<ImcMetric>)
    requires forall i, j :: 0 <= i < j < |s| ==> s[i].categoria != s[j].categoria
    ensures OrdenEstricto(OrdenarMetricas(s))
  {
    if s != [] {
      var init, last := s[..|s| - 1], s[|s| - 1];
      var sorted := OrdenarMetricas(init);
      OrdenarMetricasOrdenadas(init);
      forall i | 0 <= i < |sorted| ensures sorted[i].categoria != last.categoria {
        assert sorted[i] in multiset(init);
        var j :| 0 <= j < |init| && init[j] == sorted[i];
      }
      InsertarMetricaOrdenada(last, sorted);
    }
  }

  function SumaTotales(ms: seq<ImcMetric>): nat {
    if ms == [] then 0 else SumaTotales(ms[..|ms| - 1]) + ms[|ms| - 1].total
  }

  lemma {:induction false} SumaTotalesAppend(a: seq<ImcMetric>, b: seq<ImcMetric>)
    ensures SumaTotales(a + b) == SumaTotales(a) + SumaTotales(b)
  {
    if b != [] {
      assert (a + b)[..|a + b| - 1] == a + b[..|b| - 1];
      SumaTotalesAppend(a, b[..|b| - 1]);
    } else {
      assert a + b == a;
    }
  }

  lemma {:induction false} SumaTotalesInsertar(m: ImcMetric, s: seq<ImcMetric>)
    ensures SumaTotales(InsertarMetrica(m, s)) == SumaTotales(s) + m.total
  {
    if s == [] {
      assert InsertarMetrica(m, s) == [] + [m];
    } else if StrLess(m.categoria, s[0].categoria) {
      SumaTotalesAppend([m], s);
      assert SumaTotales([m]) == SumaTotales([][..0]) + m.total;
    } else {
      SumaTotalesInsertar(m, s[1..]);
      SumaTotalesAppend([s[0]], InsertarMetrica(m, s[1..]));
      SumaTotalesAppend([s[0]], s[1..]);
      assert s == [s[0]] + s[1..];
      assert SumaTotales([s[0]]) == SumaTotales([][..0]) + s[0].total;
    }
  }

  lemma {:induction false} SumaTotalesOrdenar(s: seq<ImcMetric>)
    ensures SumaTotales(OrdenarMetricas(s)) == SumaTotales(s)
  {
    if s != [] {
      SumaTotalesOrdenar(s[..|s| - 1]);
      SumaTotalesInsertar(s[|s| - 1], OrdenarMetricas(s[..|s| - 1]));
    }
  }

  /** Sum over keys of the sizes of their buckets. */
  function SumaConteos(keys: seq<string>, rows: seq<ImcEntity>): nat {
    if keys == [] then 0
    else SumaConteos(keys[..|keys| - 1], rows) + |DeCategoria(rows, keys[|keys| - 1])|
  }

  lemma {:induction false} SumaTotalesMetricasDe(keys: seq<string>, rows: seq<ImcEntity>)
    requires forall k :: k in keys ==> TieneCategoria(rows, k)
    ensures SumaTotales(MetricasDe(keys, rows)) == SumaConteos(keys, rows)
  {
    if keys != [] {
      var init := keys[..|keys| - 1];
      SumaTotalesMetricasDe(init, rows);
      DeCategoriaVacia(rows, keys[|keys| - 1]);
      var ms := MetricasDe(keys, rows);
      assert ms[..|ms| - 1] == MetricasDe(init, rows);
    }
  }

  /** One more row adds one to the count of its own category and nothing to the others. */
  lemma {:induction false} SumaConteosSnoc(keys: seq<string>, rows: seq<ImcEntity>, x: ImcEntity)
    requires SinRepetir(keys)
    ensures SumaConteos(keys, rows + [x]) == SumaConteos(keys, rows) + (if x.categoria in keys then 1 else 0)
  {
    if keys != [] {
      var init, k := keys[..|keys| - 1], keys[|keys| - 1];
      assert SinRepetir(init);
      SumaConteosSnoc(init, rows, x);
      DeCategoriaAppend(rows, [x], k);
      assert JsArray.Filter([x], EsDeCategoria(k)) == JsArray.Filter([x][..0], EsDeCategoria(k)) + (if x.categoria == k then [x] else []);
      assert x.categoria in keys <==> x.categoria in init || x.categoria == k;
      assert x.categoria in init ==> x.categoria != k;
    }
  }

  /** Each row is counted in exactly one category's bucket. */
  lemma {:induction false} SumaConteosDistintas(rows: seq<ImcEntity>)
    ensures SumaConteos(Distintas(rows), rows) == |rows|
  {
    if rows != [] {
      var init, x := rows[..|rows| - 1], rows[|rows| - 1];
      var d := Distintas(init);
      DistintasCorrecta(init);
      assert rows == init + [x];
      SumaConteosDistintas(init);
      SumaConteosSnoc(d, init, x);
      if x.categoria !in d {
        DeCategoriaVacia(init, x.categoria);
        DeCategoriaAppend(init, [x], x.categoria);
        assert JsArray.Filter([x], EsDeCategoria(x.categoria)) == JsArray.Filter([x][..0], EsDeCategoria(x.categoria)) + [x];
        assert (d + [x.categoria])[..|d|] == d;
      }
    }
  }

  /**
   * What `metricsByCategoria` returns for the rows in range: the metric of each
   * distinct category, sorted by category name.
   */
  function MetricasPorCategoria(inRange: seq<ImcEntity>): seq<ImcMetric> {
    OrdenarMetricas(MetricasAgrupadas(inRange))
  }

  /** The metrics in the `Map`'s key order, before the final sort. */
  function MetricasAgrupadas(inRange: seq<ImcEntity>): seq<ImcMetric> {
    DistintasCorrecta(inRange);
    MetricasDe(Distintas(inRange), inRange)
  }

  /** m is the metric of exactly the rows of its category, of which there is at least one. */
  predicate EsMetricaDe(m: ImcMetric, rows: seq<ImcEntity>) {
    |DeCategoria(rows, m.categoria)| > 0 && m == Metrica(m.categoria, DeCategoria(rows, m.categoria))
  }

  /** Facts about the unsorted metrics, one per key, in key order. */
  lemma MetricasDeEntradas(keys: seq<string>, rows: seq<ImcEntity>)
    requires forall k :: k in keys ==> TieneCategoria(rows, k)
    ensures forall i :: 0 <= i < |keys| ==> MetricasDe(keys, rows)[i].categoria == keys[i]
    ensures forall i :: 0 <= i < |keys| ==> EsMetricaDe(MetricasDe(keys, rows)[i], rows)
  {
    forall i | 0 <= i < |keys|
      ensures MetricasDe(keys, rows)[i].categoria == keys[i]
      ensures EsMetricaDe(MetricasDe(keys, rows)[i], rows)
    {
      MetricasDeIndice(keys, rows, i);
    }
  }

  /** Each sorted entry is one of the unsorted ones. */
  lemma MetricaOrdenadaEsDeGrupo(inRange: seq<ImcEntity>, i: int)
    requires 0 <= i < |MetricasPorCategoria(inRange)|
    ensures exists j :: 0 <= j < |MetricasAgrupadas(inRange)|
                     && MetricasAgrupadas(inRange)[j] == MetricasPorCategoria(inRange)[i]
  {
    var ms := MetricasAgrupadas(inRange);
    assert MetricasPorCategoria(inRange)[i] in multiset(OrdenarMetricas(ms));
  }

  /** One entry per distinct category in range, and every category in range has one. */
  lemma MetricasPorCategoriaCobertura(inRange: seq<ImcEntity>)
    ensures |MetricasPorCategoria(inRange)| == |Distintas(inRange)|
    ensures forall c :: TieneCategoria(inRange, c) <==>
      exists i :: 0 <= i < |MetricasPorCategoria(inRange)| && MetricasPorCategoria(inRange)[i].categoria == c
  {
    var keys := Distintas(inRange);
    DistintasCorrecta(inRange);
    var ms := MetricasDe(keys, inRange);
    var r := MetricasPorCategoria(inRange);
    MetricasDeEntradas(keys, inRange);
    forall c | TieneCategoria(inRange, c) ensures exists i :: 0 <= i < |r| && r[i].categoria == c {
      var j :| 0 <= j < |keys| && keys[j] == c;
      assert ms[j] in multiset(r);
      var i :| 0 <= i < |r| && r[i] == ms[j];
    }
    forall i | 0 <= i < |r| ensures TieneCategoria(inRange, r[i].categoria) {
      MetricaOrdenadaEsDeGrupo(inRange, i);
      var j :| 0 <= j < |keys| && ms[j] == r[i];
      assert keys[j] in keys;
    }
  }

  /**
   * Each entry is the metric of exactly the rows of its category, so its total
   * is their count, and positive.
   */
  lemma MetricasPorCategoriaEntradas(inRange: seq<ImcEntity>)
    ensures forall i :: 0 <= i < |MetricasPorCategoria(inRange)| ==> EsMetricaDe(MetricasPorCategoria(inRange)[i], inRange)
  {
    var keys := Distintas(inRange);
    DistintasCorrecta(inRange);
    var ms := MetricasDe(keys, inRange);
    var r := MetricasPorCategoria(inRange);
    MetricasDeEntradas(keys, inRange);
    forall i | 0 <= i < |r| ensures EsMetricaDe(r[i], inRange) {
      MetricaOrdenadaEsDeGrupo(inRange, i);
    }
  }

  /** The entries ascend strictly by category and their totals add up to the rows in range. */
  lemma MetricasPorCategoriaOrdenYTotal(inRange: seq<ImcEntity>)
    ensures OrdenEstricto(MetricasPorCategoria(inRange))
    ensures SumaTotales(MetricasPorCategoria(inRange)) == |inRange|
  {
    var keys := Distintas(inRange);
    DistintasCorrecta(inRange);
    var ms := MetricasDe(keys, inRange);
    MetricasDeEntradas(keys, inRange);
    OrdenarMetricasOrdenadas(ms);
    SumaTotalesOrdenar(ms);
    SumaTotalesMetricasDe(keys, inRange);
    SumaConteosDistintas(inRange);
  }

  /** `pesoMetrics` on the rows in range. */
  function PesoMetricas(inRange: seq<ImcEntity>): (m: ImcWeightMetric)
    ensures m.total == |inRange|
    ensures m.promedioPeso.None? <==> |inRange| == 0
    ensures m.varianzaPeso.None? <==> |inRange| == 0
    ensures |inRange| > 0 ==> Abs(m.promedioPeso.value - Media(Pesos(inRange))) <= 0.005
    ensures |inRange| > 0 ==> m.varianzaPeso.value == Varianza(Pesos(inRange))
    ensures |inRange| > 0 ==> m.varianzaPeso.value >= 0.0
  {
    var total := |inRange|;
    if total == 0 then ImcWeightMetric(0, None, None)
    else
      var promedio := Suma(Pesos(inRange)) / (total as real);
      var varianza := SumaCuadrados(Pesos(inRange), promedio) / (total as real);
      ImcWeightMetric(total, Some(ToFixed2(promedio)), Some(varianza))
  }
}
