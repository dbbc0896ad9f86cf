/**
 * The queries of the in-memory store, on the sequence of stored rows: the
 * inclusive date-range filter, the exact category filter, the stable sort by
 * `fecha`, pagination, and lookup by id.
 */
module StoreQuery {
  import opened Wrappers
  import opened ImcTypes
  import JsArray

  /** `Number.MAX_SAFE_INTEGER`, the store's default page size. */
  const MAX_SAFE_INTEGER: int := 9007199254740991

  /** The row lies in the optional, inclusive range [fechaInicio, fechaFin]. */
  predicate EnRango(row: ImcEntity, fechaInicio: Option<int>, fechaFin: Option<int>) {
    && !(fechaInicio.Some? && row.fecha < fechaInicio.value)
    && !(fechaFin.Some? && row.fecha > fechaFin.value)
  }

  /** `filterByDate`. */
  function FilterByDate(rows: seq<ImcEntity>, fechaInicio: Option<int>, fechaFin: Option<int>): seq<ImcEntity>
  {
    JsArray.Filter(rows, EnRangoP(fechaInicio, fechaFin))
  }

  function EnRangoP(fechaInicio: Option<int>, fechaFin: Option<int>): ImcEntity -> bool {
    row => EnRango(row, fechaInicio, fechaFin)
  }

  /** Appending rows never disturbs the rows already in range, and the new ones follow them. */
  lemma FilterByDateAppend(a: seq<ImcEntity>, b: seq<ImcEntity>, fechaInicio: Option<int>, fechaFin: Option<int>)
    ensures FilterByDate(a + b, fechaInicio, fechaFin) == FilterByDate(a, fechaInicio, fechaFin) + FilterByDate(b, fechaInicio, fechaFin)
  {
    JsArray.FilterAppend(a, b, EnRangoP(fechaInicio, fechaFin));
  }

  /** Rows whose `categoria` is exactly `categoria`. */
  function DeCategoria(rows: seq<ImcEntity>, categoria: string): seq<ImcEntity>
  {
    JsArray.Filter(rows, EsDeCategoria(categoria))
  }

  function EsDeCategoria(categoria: string): ImcEntity -> bool {
    (row: ImcEntity) => row.categoria == categoria
  }

  lemma DeCategoriaAppend(a: seq<ImcEntity>, b: seq<ImcEntity>, categoria: string)
    ensures DeCategoria(a + b, categoria) == DeCategoria(a, categoria) + DeCategoria(b, categoria)
  {
    JsArray.FilterAppend(a, b, EsDeCategoria(categoria));
  }

  /** `if (categoria)`: an absent or empty category string applies no filter. */
  predicate FiltroActivo(categoria: Option<string>) {
    categoria.Some? && categoria.value != ""
  }

  /** The rows `findBy` keeps before sorting: date range first, then category. */
  function Coinciden(rows: seq<ImcEntity>, categoria: Option<string>, fechaInicio: Option<int>, fechaFin: Option<int>): seq<ImcEntity>
  {
    var enRango := FilterByDate(rows, fechaInicio, fechaFin);
    if FiltroActivo(categoria) then DeCategoria(enRango, categoria.value) else enRango
  }

  /**
   * `filterByDate` keeps exactly the rows with (no start or fecha >= start) and
   * (no end or fecha <= end); `findBy` further keeps exactly the rows of the
   * requested category when one is given.
   */
  lemma CoincidenMiembros(rows: seq<ImcEntity>, categoria: Option<string>, fechaInicio: Option<int>, fechaFin: Option<int>)
    ensures forall x :: x in FilterByDate(rows, fechaInicio, fechaFin) <==>
      && x in rows
      && (fechaInicio.Some? ==> fechaInicio.value <= x.fecha)
      && (fechaFin.Some? ==> x.fecha <= fechaFin.value)
    ensures forall x :: x in Coinciden(rows, categoria, fechaInicio, fechaFin) <==>
      && x in rows
      && EnRango(x, fechaInicio, fechaFin)
      && (FiltroActivo(categoria) ==> x.categoria == categoria.value)
  {
    var enRango := FilterByDate(rows, fechaInicio, fechaFin);
    JsArray.FilterMembers(rows, EnRangoP(fechaInicio, fechaFin));
    if FiltroActivo(categoria) {
      JsArray.FilterMembers(enRango, EsDeCategoria(categoria.value));
    }
  }

  /** The sort key: the comparator is `a.fecha - b.fecha` for ASC and `b.fecha - a.fecha` for DESC. */
  function Clave(order: Order, row: ImcEntity): int {
    if order == ASC then row.fecha else -row.fecha
  }

  ghost predicate Ordenado(s: seq<ImcEntity>, order: Order) {
    forall i, j :: 0 <= i < j < |s| ==> Clave(order, s[i]) <= Clave(order, s[j])
  }

  /** Inserts x after every element whose key is not larger, as a stable sort does. */
  function Insertar(x: ImcEntity, s: seq<ImcEntity>, order: Order): (r: seq<ImcEntity>)
    ensures |r| == |s| + 1
  {
    if s == [] then [x]
    else if Clave(order, x) < Clave(order, s[0]) then [x] + s
    else [s[0]] + Insertar(x, s[1..], order)
  }

  /** Insertion adds x and removes nothing. */
  lemma {:induction false} InsertarPermutacion(x: ImcEntity, s: seq<ImcEntity>, order: Order)
    ensures multiset(Insertar(x, s, order)) == multiset(s) + multiset{x}
  {
    if s != [] && Clave(order, s[0]) <= Clave(order, x) {
      InsertarPermutacion(x, s[1..], order);
      assert s == [s[0]] + s[1..];
    }
  }

  lemma {:induction false} InsertarOrdenado(x: ImcEntity, s: seq<ImcEntity>, order: Order)
    requires Ordenado(s, order)
    ensures Ordenado(Insertar(x, s, order), order)
  {
    if s != [] && Clave(order, s[0]) <= Clave(order, x) {
      var rest := Insertar(x, s[1..], order);
      InsertarOrdenado(x, s[1..], order);
      InsertarPermutacion(x, s[1..], order);
      forall y | y in rest ensures Clave(order, s[0]) <= Clave(order, y) {
        assert y in multiset(rest);
        assert y == x || y in multiset(s[1..]);
      }
    }
  }

  /** `[...rows].sort(comparator)`: the stable sort of a copy by `fecha`. */
  function OrdenarPorFecha(s: seq<ImcEntity>, order: Order): (r: seq<ImcEntity>)
    ensures |r| == |s|
  {
    if s == [] then []
    else Insertar(s[|s| - 1], OrdenarPorFecha(s[..|s| - 1], order), order)
  }

  /** The sort puts the rows in the requested direction. */
  lemma {:induction false} OrdenarPorFechaOrdenado(s: seq<ImcEntity>, order: Order)
    ensures Ordenado(OrdenarPorFecha(s, order), order)
  {
    if s != [] {
      OrdenarPorFechaOrdenado(s[..|s| - 1], order);
      InsertarOrdenado(s[|s| - 1], OrdenarPorFecha(s[..|s| - 1], order), order);
    }
  }

  /** The sort returns a permutation of its input. */
  lemma {:induction false} OrdenarPorFechaPermutacion(s: seq<ImcEntity>, order: Order)
    ensures multiset(OrdenarPorFecha(s, order)) == multiset(s)
  {
    if s != [] {
      var init, last := s[..|s| - 1], s[|s| - 1];
      var sorted := OrdenarPorFecha(init, order);
      assert OrdenarPorFecha(s, order) == Insertar(last, sorted, order);
      assert s == init + [last];
      calc {
        multiset(Insertar(last, sorted, order));
        { InsertarPermutacion(last, sorted, order); }
        multiset(sorted) + multiset{last};
        { OrdenarPorFechaPermutacion(init, order); }
        multiset(init) + multiset{last};
        multiset(init + [last]);
      }
    }
  }

  /** Rows with the given timestamp, in their order. */
  function ConFecha(s: seq<ImcEntity>, fecha: int): seq<ImcEntity> {
    JsArray.Filter(s, EsDeFecha(fecha))
  }

  function EsDeFecha(fecha: int): ImcEntity -> bool {
    (row: ImcEntity) => row.fecha == fecha
  }

  /** x sorts strictly before the first row of s, so no row of s shares its timestamp. */
  lemma InsertarDelante(x: ImcEntity, s: seq<ImcEntity>, order: Order, fecha: int)
    requires Ordenado(s, order)
    requires s != [] && Clave(order, x) < Clave(order, s[0])
    ensures ConFecha([x] + s, fecha) == ConFecha(s, fecha) + ConFecha([x], fecha)
  {
    var p := EsDeFecha(fecha);
    JsArray.FilterAppend([x], s, p);
    JsArray.FilterUno(x, p);
    if x.fecha == fecha {
      forall i | 0 <= i < |s| ensures !p(s[i]) {
        assert Clave(order, s[0]) <= Clave(order, s[i]);
      }
      JsArray.FilterNone(s, p);
    }
  }

  /** Inserting into a sorted sequence puts x after every row with its timestamp. */
  lemma {:induction false} InsertarConFecha(x: ImcEntity, s: seq<ImcEntity>, order: Order, fecha: int)
    requires Ordenado(s, order)
    ensures ConFecha(Insertar(x, s, order), fecha) == ConFecha(s, fecha) + ConFecha([x], fecha)
  {
    if s == [] {
    } else if Clave(order, x) < Clave(order, s[0]) {
      InsertarDelante(x, s, order, fecha);
    } else {
      var p := EsDeFecha(fecha);
      var rest := Insertar(x, s[1..], order);
      InsertarConFecha(x, s[1..], order, fecha);
      JsArray.FilterAppend([s[0]], rest, p);
      JsArray.FilterAppend([s[0]], s[1..], p);
      assert s == [s[0]] + s[1..];
    }
  }

  /** Stability: rows that compare equal keep their original relative order. */
  lemma {:induction false} OrdenarPorFechaEstable(s: seq<ImcEntity>, order: Order, fecha: int)
    ensures ConFecha(OrdenarPorFecha(s, order), fecha) == ConFecha(s, fecha)
  {
    if s != [] {
      var init, last := s[..|s| - 1], s[|s| - 1];
      var sortedInit := OrdenarPorFecha(init, order);
      OrdenarPorFechaOrdenado(init, order);
      OrdenarPorFechaEstable(init, order, fecha);
      InsertarConFecha(last, sortedInit, order, fecha);
      assert s == init + [last];
      JsArray.FilterAppend(init, [last], EsDeFecha(fecha));
      calc {
        ConFecha(OrdenarPorFecha(s, order), fecha);
        ConFecha(sortedInit, fecha) + ConFecha([last], fecha);
        ConFecha(init, fecha) + ConFecha([last], fecha);
        ConFecha(init + [last], fecha);
      }
    }
  }

  /**
   * The page `findBy` returns once its defaults are applied: the date- and
   * category-filtered rows, sorted by `fecha`, counted, then sliced.
   */
  function Pagina(rows: seq<ImcEntity>, skip: int, take: int, order: Order,
                  categoria: Option<string>, fechaInicio: Option<int>, fechaFin: Option<int>): Page
  {
    var filas := Coinciden(rows, categoria, fechaInicio, fechaFin);
    Page(JsArray.Slice(OrdenarPorFecha(filas, order), skip, skip + take), |filas|)
  }

  /** A slice of a sorted sequence is sorted. */
  lemma SliceOrdenado(s: seq<ImcEntity>, a: int, b: int, order: Order)
    requires Ordenado(s, order)
    ensures Ordenado(JsArray.Slice(s, a, b), order)
  {
    var from := JsArray.RelativeIndex(a, |s|);
    var to := JsArray.RelativeIndex(b, |s|);
    var r := JsArray.Slice(s, a, b);
    assert forall i :: 0 <= i < |r| ==> r[i] == s[from + i];
  }

  /**
   * What a page holds: `total` counts every matching row whatever skip and take
   * are; each returned row is a stored row in range and of the requested
   * category; rows run by `fecha` in the requested direction; and, for
   * non-negative skip and take, the page is the window [skip, skip + take) of
   * the sorted matches, clamped to `total`, so it holds at most `take` rows.
   */
  lemma PaginaCorrecta(rows: seq<ImcEntity>, skip: int, take: int, order: Order,
                       categoria: Option<string>, fechaInicio: Option<int>, fechaFin: Option<int>)
    ensures var p := Pagina(rows, skip, take, order, categoria, fechaInicio, fechaFin);
      && p.total == |Coinciden(rows, categoria, fechaInicio, fechaFin)|
      && (forall i :: 0 <= i < |p.data| ==>
            && p.data[i] in rows
            && EnRango(p.data[i], fechaInicio, fechaFin)
            && (FiltroActivo(categoria) ==> p.data[i].categoria == categoria.value))
      && (forall i, j :: 0 <= i < j < |p.data| ==>
            && (order == ASC ==> p.data[i].fecha <= p.data[j].fecha)
            && (order == DESC ==> p.data[i].fecha >= p.data[j].fecha))
      && (0 <= skip && 0 <= take ==>
            && |p.data| <= take
            && p.data == OrdenarPorFecha(Coinciden(rows, categoria, fechaInicio, fechaFin), order)
                           [JsArray.Min(skip, p.total)..JsArray.Min(skip + take, p.total)])
  {
    var filas := Coinciden(rows, categoria, fechaInicio, fechaFin);
    var ordenadas := OrdenarPorFecha(filas, order);
    var data := JsArray.Slice(ordenadas, skip, skip + take);
    OrdenarPorFechaOrdenado(filas, order);
    SliceOrdenado(ordenadas, skip, skip + take, order);
    CoincidenMiembros(rows, categoria, fechaInicio, fechaFin);
    OrdenarPorFechaPermutacion(filas, order);
    forall x | x in data ensures x in filas {
      assert x in ordenadas;
      assert x in multiset(ordenadas);
    }
    assert Ordenado(data, order);
  }

  /** Consecutive pages of one query, laid end to end, are the page spanning both. */
  lemma PaginasConsecutivas(rows: seq<ImcEntity>, skip: int, t1: int, t2: int, order: Order,
                            categoria: Option<string>, fechaInicio: Option<int>, fechaFin: Option<int>)
    requires 0 <= skip && 0 <= t1 && 0 <= t2
    ensures Pagina(rows, skip, t1, order, categoria, fechaInicio, fechaFin).data
          + Pagina(rows, skip + t1, t2, order, categoria, fechaInicio, fechaFin).data
         == Pagina(rows, skip, t1 + t2, order, categoria, fechaInicio, fechaFin).data
  {
    var ordenadas := OrdenarPorFecha(Coinciden(rows, categoria, fechaInicio, fechaFin), order);
    assert Pagina(rows, skip, t1, order, categoria, fechaInicio, fechaFin).data == JsArray.Slice(ordenadas, skip, skip + t1);
    assert Pagina(rows, skip + t1, t2, order, categoria, fechaInicio, fechaFin).data == JsArray.Slice(ordenadas, skip + t1, skip + t1 + t2);
    assert Pagina(rows, skip, t1 + t2, order, categoria, fechaInicio, fechaFin).data == JsArray.Slice(ordenadas, skip, skip + t1 + t2);
    JsArray.SliceSplit(ordenadas, skip, skip + t1, skip + t1 + t2);
  }

  /** A first page at least as long as the match count holds every matching row, sorted. */
  lemma PaginaCompleta(rows: seq<ImcEntity>, take: int, order: Order,
                       categoria: Option<string>, fechaInicio: Option<int>, fechaFin: Option<int>)
    requires |Coinciden(rows, categoria, fechaInicio, fechaFin)| <= take
    ensures Pagina(rows, 0, take, order, categoria, fechaInicio, fechaFin).data
         == OrdenarPorFecha(Coinciden(rows, categoria, fechaInicio, fechaFin), order)
  {
    JsArray.SliceWhole(OrdenarPorFecha(Coinciden(rows, categoria, fechaInicio, fechaFin), order), take);
  }

  /** `findBy` with its default parameters: skip 0, take `MAX_SAFE_INTEGER`, order ASC. */
  function Consulta(rows: seq<ImcEntity>, skip: Option<int>, take: Option<int>, order: Option<Order>,
                    categoria: Option<string>, fechaInicio: Option<int>, fechaFin: Option<int>): (p: Page)
    ensures skip.None? && take.None? && |rows| <= MAX_SAFE_INTEGER ==>
      p.data == OrdenarPorFecha(Coinciden(rows, categoria, fechaInicio, fechaFin), order.GetOr(ASC))
  {
    var p := Pagina(rows, skip.GetOr(0), take.GetOr(MAX_SAFE_INTEGER), order.GetOr(ASC), categoria, fechaInicio, fechaFin);
    if skip.None? && take.None? && |rows| <= MAX_SAFE_INTEGER then
      PaginaCompleta(rows, MAX_SAFE_INTEGER, order.GetOr(ASC), categoria, fechaInicio, fechaFin);
      p
    else p
  }

  /**
   * With no filter at all every stored row is counted, and with the default
   * window every one of them is returned, oldest first.
   */
  lemma ConsultaSinFiltros(rows: seq<ImcEntity>, order: Option<Order>)
    ensures Coinciden(rows, None, None, None) == rows
    ensures Consulta(rows, None, None, order, None, None, None).total == |rows|
    ensures |rows| <= MAX_SAFE_INTEGER ==>
      Consulta(rows, None, None, order, None, None, None).data == OrdenarPorFecha(rows, order.GetOr(ASC))
  {
    JsArray.FilterAll(rows, EnRangoP(None, None));
  }

  /** `rows.find(row => row.id === id) ?? null`: the first row with that id. */
  function PrimeroConId(rows: seq<ImcEntity>, id: ObjectId): (r: Option<ImcEntity>)
    ensures r.None? <==> forall i :: 0 <= i < |rows| ==> rows[i].id != id
    ensures r.Some? ==> exists i :: 0 <= i < |rows| && rows[i] == r.value && r.value.id == id
                                    && forall j :: 0 <= j < i ==> rows[j].id != id
  {
    if rows == [] then None
    else if rows[0].id == id then Some(rows[0])
    else
      var r := PrimeroConId(rows[1..], id);
      assert forall i :: 1 <= i < |rows| ==> rows[i] == rows[1..][i - 1];
      if r.Some? then
        var k :| 0 <= k < |rows[1..]| && rows[1..][k] == r.value && r.value.id == id
                 && forall j :: 0 <= j < k ==> rows[1..][j].id != id;
        assert rows[k + 1] == r.value;
        r
      else r
  }
}
