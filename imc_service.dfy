/**
 * `ImcService`: computes a body-mass index, classifies it, asks the store to
 * keep it, and pages through the stored history.
 */
module ImcServicio {
  import opened Wrappers
  import opened ImcTypes
  import opened NumberFormat
  import opened MapperUtil
  import opened StoreQuery
  import opened InMemoryRepository

  const BAJO_PESO: string := "Bajo peso"
  const NORMAL: string := "Normal"
  const SOBREPESO: string := "Sobrepeso"
  const OBESO: string := "Obeso"

  /** The category of an (unrounded) index: thresholds 18.5, 25 and 30, each lower bound inclusive. */
  function Categoria(imc: real): (c: string)
    ensures c == BAJO_PESO <==> imc < 18.5
    ensures c == NORMAL <==> 18.5 <= imc < 25.0
    ensures c == SOBREPESO <==> 25.0 <= imc < 30.0
    ensures c == OBESO <==> 30.0 <= imc
  {
    if imc < 18.5 then BAJO_PESO
    else if imc < 25.0 then NORMAL
    else if imc < 30.0 then SOBREPESO
    else OBESO
  }

  /** Position of a category on the scale, lightest first. */
  function Rango(c: string): nat {
    if c == BAJO_PESO then 0
    else if c == NORMAL then 1
    else if c == SOBREPESO then 2
    else 3
  }

  /** A heavier index never lands in a lighter category. */
  lemma CategoriaMonotona(a: real, b: real)
    requires a <= b
    ensures Rango(Categoria(a)) <= Rango(Categoria(b))
  {
  }

  /** Every index gets one of the four labels. */
  lemma CategoriaTotal(imc: real)
    ensures Categoria(imc) in [BAJO_PESO, NORMAL, SOBREPESO, OBESO]
  {
  }

  /** What `calcularImc` answers: the index to two decimals and its category. */
  datatype ResultadoImc = ResultadoImc(imc: real, categoria: string)

  /** `peso / (altura * altura)`: weight over the square of the height. */
  function Indice(dto: CalcularImcDto): real
    requires dto.altura != 0.0
  {
    dto.peso / (dto.altura * dto.altura)
  }

  /**
   * The index, rounded with `toFixed(2)`; the category is taken
   * from the unrounded ratio.
   */
  function Calculo(dto: CalcularImcDto): (r: ResultadoImc)
    requires dto.altura != 0.0
    ensures r.categoria == Categoria(Indice(dto))
    ensures Abs(r.imc - Indice(dto)) <= 0.005
    ensures Abs(Indice(dto)) < TO_FIXED_LIMIT ==> (r.imc * 100.0).Floor as real == r.imc * 100.0
  {
    var imc := Indice(dto);
    ResultadoImc(ToFixed2(imc), Categoria(imc))
  }

  /** The rounded value a ratio with these hundredths bounds rounds to. */
  lemma RedondeoEn(x: real, n: int)
    requires 0.0 <= x < TO_FIXED_LIMIT
    requires n as real - 0.5 <= x * 100.0 < n as real + 0.5
    ensures ToFixed2(x) == n as real / 100.0
  {
    var c := Centesimos(x);
    assert c as real <= x * 100.0 + 0.5 < c as real + 1.0;
    assert n as real <= x * 100.0 + 0.5 < n as real + 1.0;
    assert c == n;
  }

  /** The four worked examples at a height of 1.75 m. */
  lemma EjemplosAltura175()
    ensures Calculo(CalcularImcDto(70.0, 1.75)) == ResultadoImc(22.86, NORMAL)
    ensures Calculo(CalcularImcDto(50.0, 1.75)) == ResultadoImc(16.33, BAJO_PESO)
    ensures Calculo(CalcularImcDto(80.0, 1.75)) == ResultadoImc(26.12, SOBREPESO)
    ensures Calculo(CalcularImcDto(100.0, 1.75)) == ResultadoImc(32.65, OBESO)
  {
    RedondeoEn(Indice(CalcularImcDto(70.0, 1.75)), 2286);
    RedondeoEn(Indice(CalcularImcDto(50.0, 1.75)), 1633);
    RedondeoEn(Indice(CalcularImcDto(80.0, 1.75)), 2612);
    RedondeoEn(Indice(CalcularImcDto(100.0, 1.75)), 3265);
  }

  /**
   * The category is read from the unrounded ratio: 24.996 rounds to 25.00 yet
   * stays "Normal".
   */
  lemma CategoriaSinRedondear()
    ensures Calculo(CalcularImcDto(24.996, 1.0)) == ResultadoImc(25.0, NORMAL)
  {
    RedondeoEn(Indice(CalcularImcDto(24.996, 1.0)), 2500);
  }

  class ImcService {
    const imcRepository: InMemoryMetricRepository

    constructor (imcRepository: InMemoryMetricRepository)
      ensures this.imcRepository == imcRepository
    {
      this.imcRepository := imcRepository;
    }

    /**
     * `calcularImc(data, userId = null)`: one `create` call with the given weight
     * and height, the rounded index, its category and the current time `ahora`;
     * the id is the one the store mints, `nuevoId`. `userId` is accepted and not used.
     */
    method CalcularImc(data: CalcularImcDto, userId: Option<string>, ahora: int, nuevoId: ObjectId)
      returns (result: ResultadoImc)
      requires data.altura != 0.0
      modifies imcRepository
      ensures result == Calculo(data)
      ensures imcRepository.data == old(imcRepository.data) + [ImcEntity(nuevoId, data.peso, data.altura, result.imc, result.categoria, ahora, None)]
      ensures imcRepository.sequence == old(imcRepository.sequence)
    {
      var imc := Indice(data);
      var imcRedondeado := ToFixed2(imc);
      var categoria: string;
      if imc < 18.5 {
        categoria := BAJO_PESO;
      } else if imc < 25.0 {
        categoria := NORMAL;
      } else if imc < 30.0 {
        categoria := SOBREPESO;
      } else {
        categoria := OBESO;
      }
      result := ResultadoImc(imcRedondeado, categoria);
      var rec := GuardarImcDto(data.peso, data.altura, imcRedondeado, categoria, ahora);
      var _ := imcRepository.Create(rec, nuevoId);
    }

    /** `historial`: the page `findBy` answers, each row projected to a record. */
    method Historial(skip: Option<int>, take: Option<int>, order: Option<Order>,
                     categoria: Option<string>, fechaInicio: Option<int>, fechaFin: Option<int>)
      returns (records: seq<ImcRecord>)
      ensures var page := Consulta(imcRepository.data, skip, take, order, categoria, fechaInicio, fechaFin);
              |records| == |page.data| &&
              forall i :: 0 <= i < |records| ==> records[i] == ToImcRecord(page.data[i])
    {
      var page := imcRepository.FindBy(skip, take, order, categoria, fechaInicio, fechaFin);
      records := seq(|page.data|, i requires 0 <= i < |page.data| => ToImcRecord(page.data[i]));
    }
  }
}
