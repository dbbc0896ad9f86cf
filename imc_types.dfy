/**
 * The record shapes of the BMI module: the persisted entity, the record handed
 * to clients, the request DTO and the record the service asks the store to save.
 * Weights, heights and ratios are reals; a `Date` is its timestamp in milliseconds.
 */
module ImcTypes {
  import opened Wrappers

  /** A MongoDB ObjectId, treated as an opaque value. */
  type ObjectId = nat

  /** `ImcEntity`: one persisted BMI calculation. */
  datatype ImcEntity = ImcEntity(
    id: ObjectId,
    peso: real,
    altura: real,
    imc: real,
    categoria: string,
    fecha: int,
    userId: Option<string>)

  /** `ImcRecord`: the client-facing record; `id` and `userId` are optional. */
  datatype ImcRecord = ImcRecord(
    id: Option<int>,
    peso: real,
    altura: real,
    imc: real,
    categoria: string,
    fecha: int,
    userId: Option<string>)

  /** `CalcularImcDto`: the calculation request body. */
  datatype CalcularImcDto = CalcularImcDto(peso: real, altura: real)

  /** The record the service hands to the store's `create`. */
  datatype GuardarImcDto = GuardarImcDto(
    peso: real,
    altura: real,
    imc: real,
    categoria: string,
    fecha: int)

  /** Sort direction of the history query. */
  datatype Order = ASC | DESC

  /** What `findBy` returns: one page of rows and the count before pagination. */
  datatype Page = Page(data: seq<ImcEntity>, total: nat)
}
