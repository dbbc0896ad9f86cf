/**
 * `ValidarImcPipe`: the range check on a calculation request. The weight is
 * checked first, then the height; each failure is a Bad Request with its own
 * message, and an accepted request passes through unchanged.
 */
module ValidarImcPipe {
  import opened Wrappers
  import opened ImcTypes

  /** A `BadRequestException` carrying its message. */
  datatype BadRequest = BadRequest(message: string)

  const PESO_INVALIDO: string := "Valores inválidos: peso debe ser > 0 y < 500"
  const ALTURA_INVALIDA: string := "Valores inválidos: altura debe ser > 0 y < 3"

  predicate PesoValido(peso: real) {
    0.0 < peso < 500.0
  }

  predicate AlturaValida(altura: real) {
    0.0 < altura < 3.0
  }

  function Transform(value: CalcularImcDto): (r: Result<CalcularImcDto, BadRequest>)
    ensures r.Success? <==> 0.0 < value.peso < 500.0 && 0.0 < value.altura < 3.0
    ensures r.Success? ==> r.value == value
    ensures !(0.0 < value.peso < 500.0) ==> r == Failure(BadRequest(PESO_INVALIDO))
    ensures 0.0 < value.peso < 500.0 && !(0.0 < value.altura < 3.0) ==> r == Failure(BadRequest(ALTURA_INVALIDA))
  {
    if !(value.peso > 0.0) || value.peso >= 500.0 then Failure(BadRequest(PESO_INVALIDO))
    else if !(value.altura > 0.0) || value.altura >= 3.0 then Failure(BadRequest(ALTURA_INVALIDA))
    else Success(value)
  }

  /** The weight message wins whatever the height: the weight check runs first. */
  lemma PesoPrimero(value: CalcularImcDto)
    requires !PesoValido(value.peso)
    ensures Transform(value) == Failure(BadRequest(PESO_INVALIDO))
    ensures forall a: real :: Transform(CalcularImcDto(value.peso, a)) == Transform(value)
  {
  }

  /** Both ranges are open: each end point is rejected. */
  lemma LimitesExclusivos(peso: real, altura: real)
    requires PesoValido(peso) && AlturaValida(altura)
    ensures Transform(CalcularImcDto(0.0, altura)).Failure?
    ensures Transform(CalcularImcDto(500.0, altura)).Failure?
    ensures Transform(CalcularImcDto(peso, 0.0)) == Failure(BadRequest(ALTURA_INVALIDA))
    ensures Transform(CalcularImcDto(peso, 3.0)) == Failure(BadRequest(ALTURA_INVALIDA))
    ensures Transform(CalcularImcDto(peso, altura)).Success?
  {
  }

  /** An accepted request keeps the BMI division defined. */
  lemma AceptadoDivisionDefinida(value: CalcularImcDto)
    requires Transform(value).Success?
    ensures value.altura * value.altura > 0.0
  {
  }
}
