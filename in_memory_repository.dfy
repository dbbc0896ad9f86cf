/**
 * `InMemoryMetricRepository`: the store behind the dashboard scenarios. It keeps
 * its rows in insertion order and answers every query by filtering, sorting and
 * slicing a copy of them.
 */
module InMemoryRepository {
  import opened Wrappers
  import opened ImcTypes
  import JsArray
  import opened StoreQuery
  import opened StoreMetrics
  import opened Estadistica
  import opened NumberFormat

  /** The entity `create` builds: the five given fields and the id it is handed, never a `userId`. */
  function NuevaEntidad(dto: GuardarImcDto, id: ObjectId): (e: ImcEntity)
    ensures e.id == id && e.userId.None?
    ensures e.peso == dto.peso && e.altura == dto.altura && e.imc == dto.imc
    ensures e.categoria == dto.categoria && e.fecha == dto.fecha
  {
    ImcEntity(id, dto.peso, dto.altura, dto.imc, dto.categoria, dto.fecha, None)
  }

  class InMemoryMetricRepository {
    /** The stored rows, oldest first. */
    var data: seq<ImcEntity>
    /** Reset to 1 on `clear`; no operation reads it. */
    var sequence: int

    constructor ()
      ensures data == [] && sequence == 1
    {
      data := [];
      sequence := 1;
    }

    method Clear()
      modifies this
      ensures data == [] && sequence == 1
    {
      data := [];
      sequence := 1;
    }

    /**
     * `findBy(skip = 0, take = MAX_SAFE_INTEGER, order = 'ASC', categoria?,
     * fechaInicio?, fechaFin?)`. Sorts a copy: the stored rows stay as they are.
     */
    method FindBy(skip: Option<int>, take: Option<int>, order: Option<Order>,
                  categoria: Option<string>, fechaInicio: Option<int>, fechaFin: Option<int>)
      returns (page: Page)
      ensures page == Consulta(data, skip, take, order, categoria, fechaInicio, fechaFin)
    {
      var s := skip.GetOr(0);
      var t := take.GetOr(MAX_SAFE_INTEGER);
      var o := order.GetOr(ASC);
      var rows := FilterByDate(data, fechaInicio, fechaFin);
      if FiltroActivo(categoria) {
        rows := DeCategoria(rows, categoria.value);
      }
      rows := OrdenarPorFecha(rows, o);
      var total := |rows|;
      var sliced := JsArray.Slice(rows, s, s + t);
      page := Page(sliced, total);
    }

    method FindById(id: ObjectId) returns (r: Option<ImcEntity>)
      ensures r == PrimeroConId(data, id)
    {
      r := PrimeroConId(data, id);
    }

    /** Appends the new entity after every existing row and returns it. */
    method Create(dto: GuardarImcDto, id: ObjectId) returns (entity: ImcEntity)
      modifies this
      ensures entity == NuevaEntidad(dto, id)
      ensures data == old(data) + [entity]
      ensures sequence == old(sequence)
    {
      entity := ImcEntity(id, dto.peso, dto.altura, dto.imc, dto.categoria, dto.fecha, None);
      data := data + [entity];
    }

    /** `update()` of this store changes nothing and always answers null. */
    method Update() returns (r: Option<ImcEntity>)
      ensures r.None?
    {
      r := None;
    }

    /** `delete()` of this store changes nothing and always answers null. */
    method Delete() returns (r: Option<ImcEntity>)
      ensures r.None?
    {
      r := None;
    }

    /**
     * Groups the rows in range by category in a `Map` (keys in first-appearance
     * order), turns each group into its metric, and sorts the metrics by category.
     */
    method MetricsByCategoria(fechaInicio: Option<int>, fechaFin: Option<int>) returns (metrics: seq<ImcMetric>)
      ensures metrics == MetricasPorCategoria(FilterByDate(data, fechaInicio, fechaFin))
    {
      var inRange := FilterByDate(data, fechaInicio, fechaFin);
      var grouped, keys := AgruparPorCategoria(inRange);
      var unsorted := MetricasDeGrupos(inRange, grouped, keys);
      metrics := OrdenarMetricas(unsorted);
    }

    /** Count, rounded mean and variance of the weights in range; null mean and spread when none. */
    method PesoMetrics(fechaInicio: Option<int>, fechaFin: Option<int>) returns (m: ImcWeightMetric)
      ensures m == PesoMetricas(FilterByDate(data, fechaInicio, fechaFin))
    {
      var inRange := FilterByDate(data, fechaInicio, fechaFin);
      var total := |inRange|;
      if total == 0 {
        return ImcWeightMetric(0, None, None);
      }
      var promedio := Suma(Pesos(inRange)) / (total as real);
      var varianza := SumaCuadrados(Pesos(inRange), promedio) / (total as real);
      m := ImcWeightMetric(total, Some(ToFixed2(promedio)), Some(varianza));
    }
  }

  /**
   * The `for` loop of `metricsByCategoria`: each row is pushed onto its
   * category's bucket; `keys` records the `Map`'s insertion order.
   */
  method AgruparPorCategoria(inRange: seq<ImcEntity>) returns (grouped: map<string, seq<ImcEntity>>, keys: seq<string>)
    ensures keys == Distintas(inRange)
    ensures forall k :: k in grouped <==> k in keys
    ensures forall k :: k in grouped ==> grouped[k] == DeCategoria(inRange, k)
  {
    grouped, keys := map[], [];
    var i := 0;
    while i < |inRange|
      invariant 0 <= i <= |inRange|
      invariant keys == Distintas(inRange[..i])
      invariant forall k :: k in grouped <==> k in keys
      invariant forall k :: k in grouped ==> grouped[k] == DeCategoria(inRange[..i], k)
    {
      var row := inRange[i];
      GrupoCrece(inRange[..i], row);
      assert inRange[..i + 1] == inRange[..i] + [row];
      var bucket := if row.categoria in grouped then grouped[row.categoria] else [];
      bucket := bucket + [row];
      if row.categoria !in grouped {
        keys := keys + [row.categoria];
      }
      grouped := grouped[row.categoria := bucket];
      i := i + 1;
    }
    assert inRange[..i] == inRange;
  }

  /** The `forEach` over the grouped rows: one metric per key, in key order. */
  method MetricasDeGrupos(inRange: seq<ImcEntity>, grouped: map<string, seq<ImcEntity>>, keys: seq<string>)
    returns (metrics: seq<ImcMetric>)
    requires keys == Distintas(inRange)
    requires forall k :: k in keys ==> k in grouped && grouped[k] == DeCategoria(inRange, k)
    ensures metrics == MetricasAgrupadas(inRange)
  {
    DistintasCorrecta(inRange);
    metrics := [];
    var j := 0;
    while j < |keys|
      invariant 0 <= j <= |keys|
      invariant metrics == MetricasDe(keys[..j], inRange)
    {
      var categoria := keys[j];
      var rows := grouped[categoria];
      MetricasDePrefijo(keys, inRange, j);
      var total := |rows|;
      var promedio := Suma(Imcs(rows)) / (total as real);
      var varianza := SumaCuadrados(Imcs(rows), promedio) / (total as real);
      metrics := metrics + [ImcMetric(categoria, total, ToFixed2(promedio), varianza)];
      j := j + 1;
    }
    assert keys[..j] == keys;
  }

  /** How one more row changes the keys and the buckets of the grouping. */
  lemma GrupoCrece(prefix: seq<ImcEntity>, row: ImcEntity)
    ensures Distintas(prefix + [row]) ==
      if row.categoria in Distintas(prefix) then Distintas(prefix) else Distintas(prefix) + [row.categoria]
    ensures forall k :: DeCategoria(prefix + [row], k)
                     == DeCategoria(prefix, k) + (if row.categoria == k then [row] else [])
    ensures row.categoria !in Distintas(prefix) ==> DeCategoria(prefix, row.categoria) == []
  {
    assert (prefix + [row])[..|prefix|] == prefix;
    forall k ensures DeCategoria(prefix + [row], k) == DeCategoria(prefix, k) + (if row.categoria == k then [row] else []) {
      DeCategoriaAppend(prefix, [row], k);
      assert JsArray.Filter([row], EsDeCategoria(k)) == JsArray.Filter([row][..0], EsDeCategoria(k)) + (if row.categoria == k then [row] else []);
    }
    DistintasCorrecta(prefix);
    DeCategoriaVacia(prefix, row.categoria);
  }
}
