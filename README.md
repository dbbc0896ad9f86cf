# BMI service core, modelled in Dafny

This project models the logic of a small NestJS back end that computes a
body-mass index (BMI, "IMC"). Its pieces are:

- `ImcService.calcularImc` divides the weight `peso` by the square of the
  height `altura`. It rounds the result to two decimals, picks one of four
  categories from the unrounded ratio, and hands a record to the store's
  `create` exactly once.
- `ImcService.historial` projects each row of a `findBy` page to a client
  record.
- `ValidarImcPipe.transform` checks the weight range and then the height
  range, each with its own Bad Request message, and passes an accepted request
  through unchanged.
- `MapperUtil.toImcRecord` copies five fields. The record it builds has no `id`
  and no `userId`.
- `InMemoryMetricRepository` is the store the dashboard scenarios run
  against. It keeps its rows in an array and supports:
  - `clear` and `create`;
  - `findBy`: inclusive date range, exact category, stable sort by `fecha`,
    `total` counted before the skip/take slice;
  - `findById`, `update` and `delete`;
  - `metricsByCategoria`: a `Map` built in a `for` loop, one metric per group,
    sorted by category;
  - `pesoMetrics`.

Modules and files:

| module | file | contents |
|---|---|---|
| `Wrappers` | wrappers.dfy | `Option` and `Result` |
| `ImcTypes` | imc_types.dfy | the record shapes |
| `NumberFormat` | number_format.dfy | `Number(x.toFixed(2))` over the reals |
| `JsArray` | js_array.dfy | `Array.prototype.filter` and `slice`, with the JavaScript index rules |
| `ValidarImcPipe` | validar_imc_pipe.dfy | the validator |
| `MapperUtil` | mapper_util.dfy | the projection |
| `StoreQuery` | store_query.dfy | filtering, the stable sort, paging and lookup, as functions on the row sequence |
| `Estadistica` | estadistica.dfy | sum, mean and population variance |
| `StoreMetrics` | store_metrics.dfy | the per-category and the weight metrics, as functions |
| `InMemoryRepository` | in_memory_repository.dfy | the store as a class with fields `data: seq<ImcEntity>` and `sequence`; its loops are methods proved against the functions above |
| `ImcServicio` | imc_service.dfy | classification, the calculation, and the service class that owns a store |

Modelling conventions:

- Weights, heights and ratios are `real`.
- A `Date` is its timestamp, an `int`.
- An optional JavaScript argument is an `Option`.
- The id that `new ObjectId()` mints and the time that `new Date()` reads are
  parameters of the methods that use them.

## Model

| member | source | states |
|---|---|---|
| NumberFormat.Centesimos | src/module/imc/imc.service.ts:35 | the hundredths count toFixed picks for a non-negative value is within half a unit of 100·x, rounding half up |
| NumberFormat.ToFixed2 | src/module/imc/imc.service.ts:35 | `Number(x.toFixed(2))` is within 0.005 of x; below 10^21 it is a whole number of hundredths; from 10^21 up it is x itself |
| NumberFormat.ToFixed2Nearest | src/module/imc/imc.service.ts:35 | no multiple of 0.01 is closer to x than the rounded value |
| ValidarImcPipe.Transform | src/common/pipes/validar-imc-pipe.ts:6-15 | accepts iff 0 < peso < 500 and 0 < altura < 3; an accepted value is returned unchanged; a bad weight gives the weight message; a good weight with a bad height gives the height message |
| ValidarImcPipe.PesoPrimero | src/common/pipes/validar-imc-pipe.ts:8-10 | an invalid weight is reported with the weight message whatever the height is |
| ValidarImcPipe.LimitesExclusivos | src/common/pipes/validar-imc-pipe.ts:8-13 | peso 0 and 500 are rejected; altura 0 and 3 are rejected with the height message; interior values are accepted |
| ValidarImcPipe.AceptadoDivisionDefinida | src/common/pipes/validar-imc-pipe.ts:11 | an accepted request has altura·altura > 0, so the BMI division is defined |
| MapperUtil.ToImcRecord | src/common/utils/mapper.util.ts:8-16 | peso, altura, imc, categoria and fecha are copied; the record has no id and no userId |
| MapperUtil.ToImcRecordIgnoresIdentity | src/common/utils/mapper.util.ts:9-15 | entities that differ only in id and userId give the same record |
| ImcServicio.Categoria | src/module/imc/imc.service.ts:37-41 | "Bajo peso" iff imc < 18.5, "Normal" iff 18.5 ≤ imc < 25, "Sobrepeso" iff 25 ≤ imc < 30, "Obeso" iff imc ≥ 30 |
| ImcServicio.CategoriaTotal | src/module/imc/imc.service.ts:37-41 | every ratio gets one of exactly four labels |
| ImcServicio.CategoriaMonotona | src/module/imc/imc.service.ts:38-41 | a larger ratio never gets a lighter category |
| ImcServicio.Calculo | src/module/imc/imc.service.ts:34-44 | the category is that of the unrounded ratio peso/(altura·altura); the returned index is within 0.005 of it and is a whole number of hundredths |
| ImcServicio.RedondeoEn | src/module/imc/imc.service.ts:35 | a ratio within half a hundredth of n/100 rounds to n/100 |
| ImcServicio.CategoriaSinRedondear | src/module/imc/imc.service.ts:34-41 | 24.996 rounds to 25.00 yet is classified "Normal": classification uses the unrounded ratio |
| ImcServicio.EjemplosAltura175 | src/module/imc/imc.service.spec.ts:44-71 | at 1.75 m, 70 kg gives 22.86 "Normal", 50 kg 16.33 "Bajo peso", 80 kg 26.12 "Sobrepeso", 100 kg 32.65 "Obeso" |
| ImcServicio.ImcService.constructor | src/module/imc/imc.service.ts:26-28 | the service keeps the store it is given |
| ImcServicio.ImcService.CalcularImc | src/module/imc/imc.service.ts:31-58 | the result is Calculo(data); the store gains exactly one row at the end; that row has the input peso and altura, the returned imc and categoria, the current time, and no userId even when one is passed; sequence is unchanged |
| ImcServicio.ImcService.Historial | src/module/imc/imc.service.ts:60-70 | the records are the findBy page mapped element-wise by ToImcRecord, with the same length and order; total is dropped |
| JsArray.Filter | src/test/steps/imc.dashboard.cucumber.steps.ts:131-139 | `filter` never lengthens the array |
| JsArray.FilterMembers | src/test/steps/imc.dashboard.cucumber.steps.ts:131-139 | an element is kept iff it is in the input and satisfies the predicate |
| JsArray.FilterAppend | src/test/steps/imc.dashboard.cucumber.steps.ts:131-139 | filtering a concatenation is the concatenation of the filtered parts, so order is preserved |
| JsArray.FilterAll | src/test/steps/imc.dashboard.cucumber.steps.ts:131-139 | when every element passes, the filter returns its input |
| JsArray.FilterNone | src/test/steps/imc.dashboard.cucumber.steps.ts:131-139 | when no element passes, the filter returns [] |
| JsArray.FilterUno | src/test/steps/imc.dashboard.cucumber.steps.ts:131-139 | a one-element array keeps its element iff it passes |
| JsArray.RelativeIndex | src/test/steps/imc.dashboard.cucumber.steps.ts:42 | a `slice` bound becomes an index in [0, length]: a non-negative k is capped at length; a negative k with -k ≤ length gives length + k; a more negative k gives 0 |
| JsArray.Slice | src/test/steps/imc.dashboard.cucumber.steps.ts:42 | for 0 ≤ start ≤ end, `slice(start, end)` is the window [start, end) clamped to the length, so it has at most end − start elements |
| JsArray.SliceSplit | src/test/steps/imc.dashboard.cucumber.steps.ts:42 | adjacent slices concatenate to the slice spanning both |
| JsArray.SliceWhole | src/test/steps/imc.dashboard.cucumber.steps.ts:42 | an end bound at or past the length returns the whole array |
| StoreQuery.CoincidenMiembros | src/test/steps/imc.dashboard.cucumber.steps.ts:29-140 | `filterByDate` (lines 130-140) keeps exactly the rows with (no start or fecha ≥ start) and (no end or fecha ≤ end); the rows `findBy` keeps before sorting (lines 29-33) are exactly the stored rows in range and, when a non-empty category is given, of that category |
| StoreQuery.FilterByDateAppend | src/test/steps/imc.dashboard.cucumber.steps.ts:130-140 | `filterByDate` keeps rows in their stored order: it distributes over concatenation |
| StoreQuery.DeCategoriaAppend | src/test/steps/imc.dashboard.cucumber.steps.ts:31-33 | the category filter keeps rows in their order: it distributes over concatenation |
| StoreQuery.Insertar | src/test/steps/imc.dashboard.cucumber.steps.ts:35-39 | one insertion step of the sort adds one element |
| StoreQuery.InsertarPermutacion | src/test/steps/imc.dashboard.cucumber.steps.ts:35-39 | insertion adds the element and loses none |
| StoreQuery.InsertarOrdenado | src/test/steps/imc.dashboard.cucumber.steps.ts:35-39 | inserting into a sequence sorted by the comparator keeps it sorted |
| StoreQuery.OrdenarPorFecha | src/test/steps/imc.dashboard.cucumber.steps.ts:35-39 | the sort keeps the length |
| StoreQuery.OrdenarPorFechaOrdenado | src/test/steps/imc.dashboard.cucumber.steps.ts:35-39 | the result is ordered by fecha, ascending for ASC and descending for DESC |
| StoreQuery.OrdenarPorFechaPermutacion | src/test/steps/imc.dashboard.cucumber.steps.ts:35 | the sorted copy is a permutation of the rows |
| StoreQuery.InsertarDelante | src/test/steps/imc.dashboard.cucumber.steps.ts:35-39 | a row placed before a sorted sequence shares its fecha with none of its rows |
| StoreQuery.InsertarConFecha | src/test/steps/imc.dashboard.cucumber.steps.ts:35-39 | an inserted row goes after every row with the same fecha |
| StoreQuery.OrdenarPorFechaEstable | src/test/steps/imc.dashboard.cucumber.steps.ts:35-39 | the sort is stable: rows with equal fecha keep their relative order |
| StoreQuery.SliceOrdenado | src/test/steps/imc.dashboard.cucumber.steps.ts:42 | a slice of a sorted sequence is sorted |
| StoreQuery.PaginaCorrecta | src/test/steps/imc.dashboard.cucumber.steps.ts:29-44 | total counts every match whatever skip and take are; every returned row is stored, in range and of the requested category; rows are ordered by fecha in the requested direction; for skip, take ≥ 0 the data is the window [skip, min(skip+take, total)) of the sorted matches, so it holds at most take rows |
| StoreQuery.PaginasConsecutivas | src/test/steps/imc.dashboard.cucumber.steps.ts:42 | the pages (skip, t1) and (skip+t1, t2) laid end to end are the page (skip, t1+t2) |
| StoreQuery.PaginaCompleta | src/test/steps/imc.dashboard.cucumber.steps.ts:42 | a first page at least as long as the match count holds all sorted matches |
| StoreQuery.Consulta | src/test/steps/imc.dashboard.cucumber.steps.ts:21-28 | with the defaults (skip 0, take MAX_SAFE_INTEGER, ASC) the page is every match, sorted |
| StoreQuery.ConsultaSinFiltros | src/test/steps/imc.dashboard.cucumber.steps.ts:21-44 | with no filter, total is the number of stored rows, and the default page is all of them, sorted |
| StoreQuery.PrimeroConId | src/test/steps/imc.dashboard.cucumber.steps.ts:47-49 | null iff no row has the id; otherwise the row with the id at the smallest index |
| Estadistica.SumaCuadrados | src/test/steps/imc.dashboard.cucumber.steps.ts:90-93 | the sum of squared deviations is non-negative |
| Estadistica.Varianza | src/test/steps/imc.dashboard.cucumber.steps.ts:90-93 | the population variance is non-negative |
| Estadistica.SumaAcotada | src/test/steps/imc.dashboard.cucumber.steps.ts:89 | n·lo ≤ sum ≤ n·hi when every sample lies in [lo, hi] |
| Estadistica.MediaAcotada | src/test/steps/imc.dashboard.cucumber.steps.ts:89 | the mean lies between any bounds of the samples |
| Estadistica.SumaConstante | src/test/steps/imc.dashboard.cucumber.steps.ts:89-93 | equal samples c sum to n·c and have no squared deviation from c |
| Estadistica.VarianzaConstante | src/test/steps/imc.dashboard.cucumber.steps.ts:89-93 | equal samples have mean c and variance 0; in particular one sample has variance 0 |
| StoreMetrics.Imcs | src/test/steps/imc.dashboard.cucumber.steps.ts:89 | one imc value per row |
| StoreMetrics.Pesos | src/test/steps/imc.dashboard.cucumber.steps.ts:117 | one weight per row |
| StoreMetrics.DistintasCorrecta | src/test/steps/imc.dashboard.cucumber.steps.ts:77-83 | the Map's keys, in first-appearance order, are pairwise distinct and are exactly the categories of the rows |
| StoreMetrics.DeCategoriaVacia | src/test/steps/imc.dashboard.cucumber.steps.ts:80 | a category's bucket is empty iff no row carries it |
| StoreMetrics.Metrica | src/test/steps/imc.dashboard.cucumber.steps.ts:88-100 | a group's metric carries its category and row count; its mean imc is within 0.005 of the exact mean; its spread is the population variance of the group's imc values, hence non-negative |
| StoreMetrics.MetricaAcotada | src/test/steps/imc.dashboard.cucumber.steps.ts:88-100 | when every imc in a group lies in [lo, hi], the reported mean lies in [lo - 0.005, hi + 0.005]; a group of one row has spread 0 and that row's rounded imc as mean |
| StoreMetrics.MetricasDe | src/test/steps/imc.dashboard.cucumber.steps.ts:87-101 | one metric per key |
| StoreMetrics.MetricasDePrefijo | src/test/steps/imc.dashboard.cucumber.steps.ts:87-101 | each `forEach` step appends the metric of the next key |
| StoreMetrics.MetricasDeIndice | src/test/steps/imc.dashboard.cucumber.steps.ts:87-101 | the i-th metric is the metric of the rows of the i-th key, a non-empty group |
| StoreMetrics.MetricasDeEntradas | src/test/steps/imc.dashboard.cucumber.steps.ts:87-101 | every unsorted entry names its key and is the metric of exactly that key's rows |
| StoreMetrics.StrLessIrreflexive | src/test/steps/imc.dashboard.cucumber.steps.ts:103 | no category sorts before itself |
| StoreMetrics.StrLessTransitive | src/test/steps/imc.dashboard.cucumber.steps.ts:103 | the category order is transitive |
| StoreMetrics.StrLessTotal | src/test/steps/imc.dashboard.cucumber.steps.ts:103 | of two different categories, one sorts first |
| StoreMetrics.InsertarMetrica | src/test/steps/imc.dashboard.cucumber.steps.ts:103 | one insertion step of the sort adds exactly the new metric |
| StoreMetrics.InsertarMetricaOrdenada | src/test/steps/imc.dashboard.cucumber.steps.ts:103 | inserting a new category into a strictly ascending list keeps it strictly ascending |
| StoreMetrics.OrdenarMetricas | src/test/steps/imc.dashboard.cucumber.steps.ts:103 | the sorted metrics are a permutation of the unsorted ones |
| StoreMetrics.OrdenarMetricasOrdenadas | src/test/steps/imc.dashboard.cucumber.steps.ts:103 | metrics with distinct categories come out strictly ascending by category |
| StoreMetrics.SumaTotalesAppend | src/test/steps/imc.dashboard.cucumber.steps.ts:88 | the totals of a concatenation add up |
| StoreMetrics.SumaTotalesInsertar | src/test/steps/imc.dashboard.cucumber.steps.ts:103 | an insertion step of the sort adds exactly the inserted metric's total |
| StoreMetrics.SumaTotalesOrdenar | src/test/steps/imc.dashboard.cucumber.steps.ts:103 | sorting does not change the sum of the totals |
| StoreMetrics.SumaTotalesMetricasDe | src/test/steps/imc.dashboard.cucumber.steps.ts:87-101 | the totals of the metrics add up to the sizes of the groups |
| StoreMetrics.SumaConteosSnoc | src/test/steps/imc.dashboard.cucumber.steps.ts:79-83 | one more row grows the group sizes by one when its category is a key, and by zero otherwise |
| StoreMetrics.SumaConteosDistintas | src/test/steps/imc.dashboard.cucumber.steps.ts:79-83 | the groups partition the rows in range: their sizes add up to the row count |
| StoreMetrics.MetricaOrdenadaEsDeGrupo | src/test/steps/imc.dashboard.cucumber.steps.ts:103 | every sorted entry is one of the unsorted group metrics |
| StoreMetrics.MetricasPorCategoriaCobertura | src/test/steps/imc.dashboard.cucumber.steps.ts:76-103 | one entry per distinct category in range; a category has an entry iff some row in range carries it |
| StoreMetrics.MetricasPorCategoriaEntradas | src/test/steps/imc.dashboard.cucumber.steps.ts:76-103 | each entry is the metric of exactly the in-range rows of its category, so its total is their count and is positive |
| StoreMetrics.MetricasPorCategoriaOrdenYTotal | src/test/steps/imc.dashboard.cucumber.steps.ts:76-103 | entries are strictly ascending by category, and their totals add up to the in-range row count |
| StoreMetrics.PesoMetricas | src/test/steps/imc.dashboard.cucumber.steps.ts:110-127 | total is the in-range row count; mean and spread are null iff no row is in range; otherwise the mean weight is within 0.005 of the exact mean and the spread is the population variance of the weights, hence non-negative |
| InMemoryRepository.NuevaEntidad | src/test/steps/imc.dashboard.cucumber.steps.ts:52-59 | the new entity has the id it is handed and the five given fields, and no userId |
| InMemoryRepository.InMemoryMetricRepository.constructor | src/test/steps/imc.dashboard.cucumber.steps.ts:13-14 | a new store is empty with sequence 1 |
| InMemoryRepository.InMemoryMetricRepository.Clear | src/test/steps/imc.dashboard.cucumber.steps.ts:16-19 | the store is emptied and sequence is reset to 1 |
| InMemoryRepository.InMemoryMetricRepository.FindBy | src/test/steps/imc.dashboard.cucumber.steps.ts:21-45 | the page is Consulta of the stored rows with the same arguments; the stored rows are not changed |
| InMemoryRepository.InMemoryMetricRepository.FindById | src/test/steps/imc.dashboard.cucumber.steps.ts:47-49 | the answer is the first stored row with the id, or null; nothing changes |
| InMemoryRepository.InMemoryMetricRepository.Create | src/test/steps/imc.dashboard.cucumber.steps.ts:51-62 | exactly one entity with the given fields is appended after the existing rows and returned; sequence is unchanged |
| InMemoryRepository.InMemoryMetricRepository.Update | src/test/steps/imc.dashboard.cucumber.steps.ts:64-66 | always null; nothing changes |
| InMemoryRepository.InMemoryMetricRepository.Delete | src/test/steps/imc.dashboard.cucumber.steps.ts:68-70 | always null; nothing changes |
| InMemoryRepository.InMemoryMetricRepository.MetricsByCategoria | src/test/steps/imc.dashboard.cucumber.steps.ts:72-104 | the result is MetricasPorCategoria of the rows in range |
| InMemoryRepository.InMemoryMetricRepository.PesoMetrics | src/test/steps/imc.dashboard.cucumber.steps.ts:106-128 | the result is PesoMetricas of the rows in range |
| InMemoryRepository.AgruparPorCategoria | src/test/steps/imc.dashboard.cucumber.steps.ts:77-83 | the loop builds a Map whose keys, in insertion order, are the distinct categories, and whose bucket for each key is exactly the rows of that category in their order |
| InMemoryRepository.MetricasDeGrupos | src/test/steps/imc.dashboard.cucumber.steps.ts:85-101 | the `forEach` pushes, in key order, the metric of each bucket |
| InMemoryRepository.GrupoCrece | src/test/steps/imc.dashboard.cucumber.steps.ts:79-83 | one more row adds its category to the keys if it is new and appends the row to that bucket only |

## Left out

- ImcServicio.ImcService.CalcularImc: requires altura ≠ 0. The source divides
  anyway: a positive weight gives +Infinity and a zero weight NaN, both
  classified "Obeso"; a negative weight gives -Infinity, classified "Bajo
  peso". The request DTO only checks that both fields are numbers and the pipe
  is not applied, so such requests do reach the service. Dafny reals have none
  of these values. Requests the pipe accepts always meet the requirement
  (`ValidarImcPipe.AceptadoDivisionDefinida`).
- ImcServicio.Calculo: same requirement, for the same reason.
- ImcServicio.Calculo: the ratio peso/(altura·altura) is computed exactly, not
  in doubles, so at a band edge the category can differ from the source's. For
  altura 1.1 and peso 30.25 the exact ratio is 25 ("Sobrepeso"), while in
  doubles 1.1·1.1 is 1.2100000000000002, the ratio about 24.999999999999996,
  and the source answers "Normal". The same holds for
  ImcServicio.ImcService.CalcularImc.
- The controller does not apply `ValidarImcPipe` to the calculation route: the
  decorator is commented out at src/module/imc/imc.controller.ts:87-89. The
  model therefore keeps the pipe and the service separate.
- NumberFormat.ToFixed2: rounds the exact real value half up. It does not
  reproduce the binary double that `toFixed` actually rounds. A value such as
  1.005 can therefore differ in the last digit.
- `Math.sqrt`: left out. The metrics report the population variance (the
  `varianzaImc` and `varianzaPeso` fields) where the source reports its rounded
  square root (`variacionImc`, `variacionPeso`).
- Floating-point summation: `reduce` is summed exactly over the reals, with no
  rounding error.
- NaN, Infinity and non-number inputs: not modelled, nor the `Number(...)`
  coercions of the store.
- `localeCompare`: modelled as lexicographic order on character codes (StoreMetrics.StrLess), not locale order.
- ids: the id `new ObjectId()` mints is a parameter of `Create` and
  `CalcularImc`. Nothing requires it to differ from the ids already stored, so
  `FindById` is only proved to return the first row with the id.
  `row.id === id` is value equality on that id.
- Entities are values. In the source, `create` (src/test/steps/imc.dashboard.cucumber.steps.ts:60-61)
  and `findBy`/`findById` (lines 42, 48) hand out the very objects held in
  `data`, so a caller that mutates one changes the store. That aliasing is not
  modelled.
- Time: `new Date()` is the parameter `ahora`. `data.fecha instanceof Date ?
  … : new Date(data.fecha)` is not modelled because timestamps are already
  integers.
- Async: promises and `await` are synchronous calls. A failure of the
  un-awaited `create` in `calcularImc` is not modelled.
- The MongoDB-backed `ImcRepository` (src/module/imc/imc.repository.ts) is not
  part of this model. It issues TypeORM and MongoDB calls and aggregation
  pipelines.
- The service talks to the in-memory store, the class the dashboard scenarios
  inject, rather than to the `IImcRepository` interface.
- The unused abstract class `ImcStore` is not modelled.
- `skip` and `take` are integers. JavaScript numbers with a fractional part are
  not modelled.
- `sequence` is kept and reset as the source does, but no operation reads it.
- Framework wiring, documentation decorators and the other step files are not
  part of this model.
- The service methods `metricas` and `metricasPeso` that the scenarios call are
  not defined in `ImcService`, so they are not modelled.
